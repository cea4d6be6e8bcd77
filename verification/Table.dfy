/**
 The value table of the routing table (src/kad.rs:52-149): values are filed under a
 random 32-bit id, and two tries map peer ids and socket addresses to these ids.
 */
module Table {
  import opened Wrappers
  import opened Bytes
  import opened Metric
  import opened Trie
  import opened Lookup
  import opened RootTrie
  import opened Peers

  // A sender half of a channel, by identity.
  type Sender = nat

  datatype KadValue = KadValue(session: Sender, stream: Sender, peer: Peer)

  // The ids in the peer trie are exactly the ids of the values, and every value is
  // filed under the id of its own peer.
  ghost predicate PeerLink(values: map<U32, KadValue>, pm: map<PeerId, U32>)
  {
    && (forall k :: k in pm ==> pm[k] in values && values[pm[k]].peer.id == k)
    && (forall i :: i in values ==> values[i].peer.id in pm && pm[values[i].peer.id] == i)
  }

  // A socket cell whose id is still in use names that value's own socket. The other
  // way round does not hold: ids dropped by the peer trie stay in the socket trie.
  ghost predicate SocketLink(values: map<U32, KadValue>, im: map<SocketAddr, U32>)
  {
    forall a :: a in im && im[a] in values ==> values[im[a]].peer.socket == a
  }

  // The one map that the table stands for.
  ghost function View(values: map<U32, KadValue>, pm: map<PeerId, U32>): map<PeerId, KadValue>
    requires PeerLink(values, pm)
  {
    map k | k in pm :: values[pm[k]]
  }

  lemma EmptyTables()
    ensures PeerLink(map[], map[]) && SocketLink(map[], map[]) && View(map[], map[]) == map[]
  {
  }

  datatype Placed = Placed(ok: bool, table: map<PeerId, KadValue>)

  // The known peers that compete with `id` for a bucket: those with its first byte.
  ghost function Rivals(t: map<PeerId, KadValue>, id: PeerId): set<PeerId>
  {
    set k | k in t && k[0] == id[0]
  }

  // Those of them that are farther from the root than `id` is.
  ghost function FartherRivals(root: PeerId, t: map<PeerId, KadValue>, id: PeerId): set<PeerId>
  {
    set k | k in t && k[0] == id[0] && Gap(root, id) < Gap(root, k)
  }

  // The possible effects of adding a value, on that one map.
  ghost function AddedTo(root: PeerId, t: map<PeerId, KadValue>, v: KadValue): set<Placed>
  {
    var id := v.peer.id;
    if id in t || |Rivals(t, id)| < K_BUCKET then
      {Placed(true, t[id := v])}
    else if FartherRivals(root, t, id) != {} then
      set e | e in FartherRivals(root, t, id) :: Placed(true, (t - {e})[id := v])
    else
      {Placed(false, t)}
  }

  // An add read back from the two maps: it is refused exactly when the peer is unknown, four
  // rivals or more are known, and none of them is farther from the root; otherwise the
  // peer is bound, everybody else is as before, and the one peer that may have gone is a
  // farther rival who made room in a full bucket.
  lemma AddedExplained(root: PeerId, t: map<PeerId, KadValue>, v: KadValue, ok: bool, t': map<PeerId, KadValue>)
    requires Placed(ok, t') in AddedTo(root, t, v)
    ensures !ok <==> v.peer.id !in t && 4 <= |Rivals(t, v.peer.id)|
                     && forall k :: k in t && k[0] == v.peer.id[0] ==> Gap(root, k) <= Gap(root, v.peer.id)
    ensures if ok then v.peer.id in t' && t'[v.peer.id] == v else t' == t
    ensures forall k :: k in t' && k != v.peer.id ==> k in t && t'[k] == t[k]
    ensures forall k :: k in t && k !in t' ==>
              && v.peer.id !in t && 4 <= |Rivals(t, v.peer.id)|
              && k[0] == v.peer.id[0] && Gap(root, v.peer.id) < Gap(root, k)
    ensures |t.Keys - t'.Keys| <= 1
  {
    var id := v.peer.id;
    if id in t || |Rivals(t, id)| < K_BUCKET {
      NothingGoes(t, id, v);
    } else if FartherRivals(root, t, id) != {} {
      var e :| e in FartherRivals(root, t, id) && t' == (t - {e})[id := v];
      OneGoes(t, id, v, e);
    } else {
      assert t.Keys - t.Keys == {};
      forall k | k in t && k[0] == id[0] ensures Gap(root, k) <= Gap(root, id) {
        assert k !in FartherRivals(root, t, id);
      }
    }
  }

  lemma NothingGoes(t: map<PeerId, KadValue>, id: PeerId, v: KadValue)
    ensures t.Keys - t[id := v].Keys == {}
  {
  }

  lemma OneGoes(t: map<PeerId, KadValue>, id: PeerId, v: KadValue, e: PeerId)
    requires e in t && id !in t
    ensures t.Keys - (t - {e})[id := v].Keys == {e}
  {
  }

  // What `DoubleKadTree::add` leaves in `values`.
  ghost function NewValues(values: map<U32, KadValue>, ok: bool, removed: seq<U32>, key: U32, v: KadValue): map<U32, KadValue>
  {
    var kept := values - set i | i in removed;
    if ok then kept[key := v] else kept
  }

  lemma MatesAreRivals(s: Space<PeerId>, root: PeerId, a: PeerId, b: PeerId)
    requires IsSpace(root, PeerBits, 256, s)
    ensures s.dist(a)[..MAX_LEVEL] == s.dist(b)[..MAX_LEVEL] <==> a[0] == b[0]
    ensures Less(s.dist(a), s.dist(b)) <==> Gap(root, a) < Gap(root, b)
  {
    SharedByFirstByte(root, a, b);
    NearerByGap(root, a, root, b);
  }

  lemma SameMates(s: Space<PeerId>, root: PeerId, values: map<U32, KadValue>, pm: map<PeerId, U32>, id: PeerId)
    requires IsSpace(root, PeerBits, 256, s) && PeerLink(values, pm)
    ensures Rivals(View(values, pm), id) == Mates(s, pm, id)
    ensures FartherRivals(root, View(values, pm), id) == FartherMates(s, pm, id)
  {
    forall k ensures k in Rivals(View(values, pm), id) <==> k in Mates(s, pm, id)
      ensures k in FartherRivals(root, View(values, pm), id) <==> k in FartherMates(s, pm, id)
    {
      MatesAreRivals(s, root, k, id);
      MatesAreRivals(s, root, id, k);
    }
  }

  // The key an add displaces, if any: the old entry of the same peer, or the victim.
  ghost predicate Displaces(s: Space<PeerId>, pm: map<PeerId, U32>, id: PeerId, e: PeerId, o: Outcome<PeerId>, key: U32)
    requires s.Valid()
  {
    && e in pm && o.ok && o.removed == [pm[e]] && o.contents == (pm - {e})[id := key]
    && (e == id || (id !in pm && |Mates(s, pm, id)| >= K_BUCKET && e in FartherMates(s, pm, id)))
  }

  lemma AddCases(s: Space<PeerId>, pm: map<PeerId, U32>, id: PeerId, key: U32, o: Outcome<PeerId>) returns (e: Option<PeerId>)
    requires s.Valid() && o in AddOutcomes(s, pm, id, key)
    ensures e.Some? ==> Displaces(s, pm, id, e.value, o, key)
    ensures e.None? ==> id !in pm && o.removed == [] && (if o.ok then o.contents == pm[id := key] else o.contents == pm)
  {
    if id in pm {
      assert (pm - {id})[id := key] == pm[id := key];
      e := Some(id);
    } else if |Mates(s, pm, id)| >= K_BUCKET && FartherMates(s, pm, id) != {} {
      var x :| x in FartherMates(s, pm, id) && o == Evicting(pm, id, key, x);
      e := Some(x);
    } else {
      e := None;
    }
  }

  // With an id that no other surviving peer uses, and only then, an accepted add keeps
  // the two tables linked.
  lemma AddKeepsLink(s: Space<PeerId>, values: map<U32, KadValue>, pm: map<PeerId, U32>, v: KadValue, key: U32, o: Outcome<PeerId>)
    requires s.Valid() && PeerLink(values, pm)
    requires o in AddOutcomes(s, pm, v.peer.id, key) && o.ok
    ensures PeerLink(NewValues(values, o.ok, o.removed, key, v), o.contents) <==>
            forall q :: q in o.contents && q != v.peer.id ==> o.contents[q] != key
  {
    var values' := NewValues(values, o.ok, o.removed, key, v);
    var e := AddCases(s, pm, v.peer.id, key, o);
    assert values'[key] == v;
    if PeerLink(values', o.contents) {
      forall q | q in o.contents && q != v.peer.id ensures o.contents[q] != key {
        assert values'[o.contents[q]].peer.id == q;
      }
    } else if forall q :: q in o.contents && q != v.peer.id ==> o.contents[q] != key {
      forall k | k in o.contents ensures o.contents[k] in values' && values'[o.contents[k]].peer.id == k {
        assert k != v.peer.id ==> k in pm && o.contents[k] == pm[k];
      }
      forall i | i in values' ensures values'[i].peer.id in o.contents && o.contents[values'[i].peer.id] == i {
        assert i != key ==> i in values && values'[i] == values[i] && i !in o.removed;
      }
    }
  }

  lemma FreshKeepsLink(s: Space<PeerId>, values: map<U32, KadValue>, pm: map<PeerId, U32>, v: KadValue, key: U32, o: Outcome<PeerId>)
    requires s.Valid() && PeerLink(values, pm) && key !in values
    requires o in AddOutcomes(s, pm, v.peer.id, key)
    ensures PeerLink(NewValues(values, o.ok, o.removed, key, v), o.contents)
    ensures !o.ok ==> NewValues(values, o.ok, o.removed, key, v) == values && o.contents == pm
  {
    var e := AddCases(s, pm, v.peer.id, key, o);
    if o.ok {
      forall q | q in o.contents && q != v.peer.id ensures o.contents[q] != key {
        assert q in pm && o.contents[q] == pm[q];
      }
      AddKeepsLink(s, values, pm, v, key, o);
    } else {
      assert NewValues(values, o.ok, o.removed, key, v) == values;
    }
  }

  lemma ViewWithout(values: map<U32, KadValue>, pm: map<PeerId, U32>, v: KadValue, key: U32, e: PeerId)
    requires PeerLink(values, pm) && key !in values && e in pm
    requires PeerLink(NewValues(values, true, [pm[e]], key, v), (pm - {e})[v.peer.id := key])
    ensures View(NewValues(values, true, [pm[e]], key, v), (pm - {e})[v.peer.id := key]) == (View(values, pm) - {e})[v.peer.id := v]
  {
    var values', pm' := NewValues(values, true, [pm[e]], key, v), (pm - {e})[v.peer.id := key];
    var a, b := View(values', pm'), (View(values, pm) - {e})[v.peer.id := v];
    assert a.Keys == pm'.Keys == b.Keys;
    forall k | k in a ensures a[k] == b[k] {
      if k == v.peer.id {
        assert values'[key] == v;
      } else {
        assert pm'[k] == pm[k] && pm[k] in values && values[pm[k]].peer.id == k;
        assert pm[k] != pm[e] && pm[k] != key;
        assert values'[pm[k]] == values[pm[k]];
      }
    }
  }

  lemma ViewWith(values: map<U32, KadValue>, pm: map<PeerId, U32>, v: KadValue, key: U32)
    requires PeerLink(values, pm) && key !in values
    requires PeerLink(NewValues(values, true, [], key, v), pm[v.peer.id := key])
    ensures View(NewValues(values, true, [], key, v), pm[v.peer.id := key]) == View(values, pm)[v.peer.id := v]
  {
  }

  lemma AddMakesView(s: Space<PeerId>, root: PeerId, values: map<U32, KadValue>, pm: map<PeerId, U32>, v: KadValue, key: U32, o: Outcome<PeerId>)
    requires IsSpace(root, PeerBits, 256, s) && PeerLink(values, pm) && key !in values
    requires o in AddOutcomes(s, pm, v.peer.id, key)
    ensures PeerLink(NewValues(values, o.ok, o.removed, key, v), o.contents)
    ensures Placed(o.ok, View(NewValues(values, o.ok, o.removed, key, v), o.contents)) in AddedTo(root, View(values, pm), v)
  {
    var id, t := v.peer.id, View(values, pm);
    var e := AddCases(s, pm, id, key, o);
    FreshKeepsLink(s, values, pm, v, key, o);
    if e.Some? {
      ViewWithout(values, pm, v, key, e.value);
      DisplacedIsAdded(s, root, values, pm, v, key, e.value, o);
    } else {
      SameMates(s, root, values, pm, id);
      if o.ok {
        ViewWith(values, pm, v, key);
      }
    }
  }

  lemma DisplacedIsAdded(s: Space<PeerId>, root: PeerId, values: map<U32, KadValue>, pm: map<PeerId, U32>, v: KadValue, key: U32,
                         e: PeerId, o: Outcome<PeerId>)
    requires IsSpace(root, PeerBits, 256, s) && PeerLink(values, pm) && Displaces(s, pm, v.peer.id, e, o, key)
    ensures Placed(true, (View(values, pm) - {e})[v.peer.id := v]) in AddedTo(root, View(values, pm), v)
  {
    var id, t := v.peer.id, View(values, pm);
    SameMates(s, root, values, pm, id);
    if e == id {
      assert (t - {id})[id := v] == t[id := v];
    }
  }

  // Every socket binding after an add is the new one or an old one.
  lemma SocketsAfterAdd(s: Space<SocketAddr>, im: map<SocketAddr, U32>, a: SocketAddr, key: U32, o: Outcome<SocketAddr>)
    requires s.Valid() && o in AddOutcomes(s, im, a, key)
    ensures forall b :: b in o.contents ==> (b == a && o.contents[b] == key) || (b in im && o.contents[b] == im[b])
  {
    if a !in im && |Mates(s, im, a)| >= K_BUCKET && FartherMates(s, im, a) != {} {
      var x :| x in FartherMates(s, im, a) && o == Evicting(im, a, key, x);
    }
  }

  // The socket trie after an add whose report is thrown away.
  ghost predicate SocketAdded(s: Space<SocketAddr>, im: map<SocketAddr, U32>, a: SocketAddr, key: U32, im': map<SocketAddr, U32>)
    requires s.Valid()
  {
    exists ok, gone :: Outcome(ok, gone, im') in AddOutcomes(s, im, a, key)
  }

  lemma AddKeepsSockets(s: Space<SocketAddr>, values: map<U32, KadValue>, im: map<SocketAddr, U32>, removed: seq<U32>,
                        key: U32, v: KadValue, im': map<SocketAddr, U32>)
    requires s.Valid() && SocketLink(values, im)
    requires forall a :: a in im ==> im[a] != key
    requires SocketAdded(s, im, v.peer.socket, key, im')
    ensures SocketLink(NewValues(values, true, removed, key, v), im')
  {
    var ok, gone :| Outcome(ok, gone, im') in AddOutcomes(s, im, v.peer.socket, key);
    SocketsAfterAdd(s, im, v.peer.socket, key, Outcome(ok, gone, im'));
  }

  // Removing a peer, and with it its id and its socket.
  lemma RemoveKeepsLink(values: map<U32, KadValue>, pm: map<PeerId, U32>, key: PeerId)
    requires PeerLink(values, pm) && key in pm
    ensures PeerLink(values - {pm[key]}, pm - {key})
    ensures View(values - {pm[key]}, pm - {key}) == View(values, pm) - {key}
  {
    var values', pm' := values - {pm[key]}, pm - {key};
    forall k | k in pm' ensures pm'[k] in values' && values'[pm'[k]].peer.id == k {
      assert values[pm[k]].peer.id == k;
    }
  }

  lemma RemoveKeepsSockets(values: map<U32, KadValue>, im: map<SocketAddr, U32>, i: U32, a: SocketAddr)
    requires SocketLink(values, im)
    ensures SocketLink(values - {i}, im - {a})
  {
  }

  lemma NothingToRemove(values: map<U32, KadValue>, pm: map<PeerId, U32>, key: PeerId)
    requires PeerLink(values, pm) && key !in pm
    ensures pm - {key} == pm && View(values, pm) - {key} == View(values, pm)
  {
  }

  // ---------------------------------------------------------------- queries

  // `v` is the value of the known peer nearest to `key`: the XOR of the two ids, as numbers,
  // is less than that of any other. The flag tells whether it is `key` itself.
  ghost predicate Nearest(t: map<PeerId, KadValue>, key: PeerId, v: KadValue, exact: bool)
  {
    var id := v.peer.id;
    && id in t && t[id] == v
    && (exact <==> id == key)
    && forall k :: k in t && k != id ==> Gap(key, id) < Gap(key, k)
  }

  lemma HitIsNearest(s: Space<PeerId>, root: PeerId, values: map<U32, KadValue>, pm: map<PeerId, U32>, key: PeerId, h: Hit<PeerId>)
    requires IsSpace(root, PeerBits, 256, s) && PeerLink(values, pm) && IsClosest(s, pm, key, h)
    ensures h.id in values && values[h.id].peer.id == h.key
    ensures Nearest(View(values, pm), key, values[h.id], h.exact)
  {
    forall k, k' | PeerBits(k) == PeerBits(k') ensures k == k' {
      PeerBitsInjective(k, k');
    }
    ClosestUnique(s, root, PeerBits, 256, pm, key, h);
    forall k | k in pm && k != h.key ensures Gap(key, h.key) < Gap(key, k) {
      NearerByGap(key, h.key, key, k);
    }
  }

  // There is one nearest peer.
  lemma NearestUnique(t: map<PeerId, KadValue>, key: PeerId, v: KadValue, w: KadValue)
    requires Nearest(t, key, v, v.peer.id == key) && Nearest(t, key, w, w.peer.id == key)
    ensures v == w
  {
  }

  // The nearest known peer is the hop the message came from.
  ghost predicate OnlyBack(t: map<PeerId, KadValue>, key: PeerId, prev: PeerId)
  {
    prev in t && Nearest(t, key, t[prev], prev == key)
  }

  lemma NextIsNearest(s: Space<PeerId>, root: PeerId, values: map<U32, KadValue>, pm: map<PeerId, U32>,
                      key: PeerId, prev: PeerId, h: Hit<PeerId>)
    requires IsSpace(root, PeerBits, 256, s) && PeerLink(values, pm) && IsClosest(s, pm, key, h)
    ensures h.id in values && Nearest(View(values, pm), key, values[h.id], values[h.id].peer.id == key)
    ensures values[h.id].peer.id == h.key
    ensures h.key == prev <==> OnlyBack(View(values, pm), key, prev)
  {
    var t := View(values, pm);
    HitIsNearest(s, root, values, pm, key, h);
    if OnlyBack(t, key, prev) {
      NearestUnique(t, key, t[prev], values[h.id]);
    }
  }

  // What the id that `next_closest` answers with stands for.
  lemma NextAnswer(s: Space<PeerId>, root: PeerId, values: map<U32, KadValue>, pm: map<PeerId, U32>, misses: bool,
                   key: PeerId, prev: PeerId, hit: Option<Hit<PeerId>>, id: Option<U32>)
    requires IsSpace(root, PeerBits, 256, s) && PeerLink(values, pm) && Answers(s, pm, misses, key, hit)
    requires id == if hit.Some? && hit.value.key != prev then Some(hit.value.id) else None
    ensures id.None? <==> misses || OnlyBack(View(values, pm), key, prev)
    ensures id.Some? ==> id.value in values && values[id.value].peer.id != prev
    ensures id.Some? ==> Nearest(View(values, pm), key, values[id.value], values[id.value].peer.id == key)
    ensures key in pm && key != prev ==> id.Some? && values[id.value] == View(values, pm)[key]
  {
    if hit.Some? {
      NextIsNearest(s, root, values, pm, key, prev, hit.value);
    }
  }

  // ---------------------------------------------------------------- every run

  datatype Tables = Tables(values: map<U32, KadValue>, pm: map<PeerId, U32>, im: map<SocketAddr, U32>)

  datatype Change = Insert(value: KadValue, key: U32) | Delete(id: PeerId)

  // The effect of `add`, with an id that is nowhere in use, and of `remove`.
  ghost predicate Changes(sp: Space<PeerId>, si: Space<SocketAddr>, t: Tables, c: Change, t': Tables)
    requires sp.Valid() && si.Valid()
  {
    match c
    case Insert(v, key) =>
      && key !in t.values && (forall a :: a in t.im ==> t.im[a] != key)
      && exists o :: o in AddOutcomes(sp, t.pm, v.peer.id, key)
           && t'.pm == o.contents && t'.values == NewValues(t.values, o.ok, o.removed, key, v)
           && if o.ok then SocketAdded(si, t.im, v.peer.socket, key, t'.im) else t'.im == t.im
    case Delete(id) =>
      if id in t.pm && t.pm[id] in t.values
      then t' == Tables(t.values - {t.pm[id]}, t.pm - {id}, t.im - {t.values[t.pm[id]].peer.socket})
      else t' == t.(pm := t.pm - {id})
  }

  lemma ChangeKeepsLinks(sp: Space<PeerId>, si: Space<SocketAddr>, t: Tables, c: Change, t': Tables)
    requires sp.Valid() && si.Valid() && PeerLink(t.values, t.pm) && SocketLink(t.values, t.im)
    requires Changes(sp, si, t, c, t')
    ensures PeerLink(t'.values, t'.pm) && SocketLink(t'.values, t'.im)
  {
    match c
    case Insert(v, key) =>
      var o :| o in AddOutcomes(sp, t.pm, v.peer.id, key) && t'.pm == o.contents
        && t'.values == NewValues(t.values, o.ok, o.removed, key, v)
        && if o.ok then SocketAdded(si, t.im, v.peer.socket, key, t'.im) else t'.im == t.im;
      FreshKeepsLink(sp, t.values, t.pm, v, key, o);
      if o.ok {
        AddKeepsSockets(si, t.values, t.im, o.removed, key, v, t'.im);
      }
    case Delete(id) =>
      if id in t.pm {
        RemoveKeepsLink(t.values, t.pm, id);
        RemoveKeepsSockets(t.values, t.im, t.pm[id], t.values[t.pm[id]].peer.socket);
      } else {
        NothingToRemove(t.values, t.pm, id);
      }
  }

  // After every run the ids in the peer trie are exactly those of the values, each value
  // is filed under its own peer, and a socket cell in use names its value's own socket.
  lemma {:induction false} EveryRunLinked(sp: Space<PeerId>, si: Space<SocketAddr>, cs: seq<Change>, ts: seq<Tables>, n: nat)
    requires sp.Valid() && si.Valid() && |ts| == |cs| + 1 && n < |ts|
    requires ts[0] == Tables(map[], map[], map[])
    requires forall i :: 0 <= i < |cs| ==> Changes(sp, si, ts[i], cs[i], ts[i + 1])
    ensures PeerLink(ts[n].values, ts[n].pm) && SocketLink(ts[n].values, ts[n].im)
    ensures ts[n].pm.Values == ts[n].values.Keys
  {
    if n == 0 {
    } else {
      EveryRunLinked(sp, si, cs, ts, n - 1);
      assert Changes(sp, si, ts[n - 1], cs[n - 1], ts[n - 1 + 1]);
      ChangeKeepsLinks(sp, si, ts[n - 1], cs[n - 1], ts[n]);
    }
    var t := ts[n];
    forall i | i in t.values ensures i in t.pm.Values {
      assert t.pm[t.values[i].peer.id] == i;
    }
  }
}

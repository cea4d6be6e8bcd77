/**
 `Buffer` (src/buffer.rs): requests waiting for a connection, and temporary sessions.
 Every entry carries the mark of the timer's sweep: an entry that is found marked is
 dropped, any other is marked.
 */
module Buffer {
  import opened Wrappers
  import opened Bytes
  import opened Lookup
  import opened Peers
  import opened Table

  datatype Aged<+V> = Aged(marked: bool, value: V)

  // A request: its delivery id and its data.
  type Request = (U64, seq<byte>)

  // A temporary session, and whether it is direct or relayed.
  datatype Tmp = Tmp(value: KadValue, direct: bool)

  // ---------------------------------------------------------------- what the operations do to a map

  // One pass of the timer over one of the maps.
  ghost function Swept<K, V>(m: map<K, Aged<V>>): map<K, Aged<V>>
  {
    map k | k in m && !m[k].marked :: Aged(true, m[k].value)
  }

  function Pushed<K, V>(m: map<K, Aged<seq<V>>>, k: K, v: V): map<K, Aged<seq<V>>>
  {
    if k in m then m[k := Aged(m[k].marked, m[k].value + [v])] else m[k := Aged(false, [v])]
  }

  function WithPeer(t: Tmp, info: Peer): Tmp
  {
    t.(value := t.value.(peer := info))
  }

  function Revised(m: map<PeerId, Aged<Tmp>>, p: PeerId, info: Peer): map<PeerId, Aged<Tmp>>
  {
    if p in m then m[p := Aged(m[p].marked, WithPeer(m[p].value, info))] else m
  }

  class Buffer {
    var dhts: map<SocketAddr, Aged<()>>
    var connects: map<PeerId, Aged<seq<Request>>>
    var results: map<PeerId, Aged<seq<Request>>>
    var tmps: map<PeerId, Aged<Tmp>>

    constructor ()
      ensures dhts == map[] && connects == map[] && results == map[] && tmps == map[]
    {
      dhts, connects, results, tmps := map[], map[], map[], map[];
    }

    // True when a connection attempt is already under way.
    method AddConnect(peer: PeerId, tid: U64, data: seq<byte>) returns (waiting: bool)
      modifies `connects
      ensures waiting <==> peer in old(connects)
      ensures connects == Pushed(old(connects), peer, (tid, data))
    {
      if peer in connects {
        connects := connects[peer := Aged(connects[peer].marked, connects[peer].value + [(tid, data)])];
        waiting := true;
      } else {
        connects := connects[peer := Aged(false, [(tid, data)])];
        waiting := false;
      }
    }

    method RemoveConnect(peer: PeerId) returns (requests: seq<Request>)
      modifies `connects
      ensures connects == old(connects) - {peer}
      ensures requests == if peer in old(connects) then old(connects)[peer].value else []
    {
      requests := if peer in connects then connects[peer].value else [];
      connects := connects - {peer};
    }

    method AddResult(peer: PeerId, tid: U64, data: seq<byte>) returns (waiting: bool)
      modifies `results
      ensures waiting <==> peer in old(results)
      ensures results == Pushed(old(results), peer, (tid, data))
    {
      if peer in results {
        results := results[peer := Aged(results[peer].marked, results[peer].value + [(tid, data)])];
        waiting := true;
      } else {
        results := results[peer := Aged(false, [(tid, data)])];
        waiting := false;
      }
    }

    method RemoveResult(peer: PeerId) returns (requests: seq<Request>)
      modifies `results
      ensures results == old(results) - {peer}
      ensures requests == if peer in old(results) then old(results)[peer].value else []
    {
      requests := if peer in results then results[peer].value else [];
      results := results - {peer};
    }

    method RemoveStable(peer: PeerId)
      modifies `connects, `results
      ensures connects == old(connects) - {peer} && results == old(results) - {peer}
    {
      connects := connects - {peer};
      results := results - {peer};
    }

    // A temporary session replaces the one filed for the same peer, mark and all.
    method AddTmp(peer: PeerId, value: KadValue, direct: bool)
      modifies `tmps
      ensures tmps == old(tmps)[peer := Aged(false, Tmp(value, direct))]
    {
      tmps := tmps[peer := Aged(false, Tmp(value, direct))];
    }

    // What is known of the peer is replaced, and nothing else: the entry ages on.
    method UpdatePeer(peer: PeerId, info: Peer)
      modifies `tmps
      ensures tmps == Revised(old(tmps), peer, info)
      ensures tmps.Keys == old(tmps).Keys && forall p :: p in tmps && p != peer ==> tmps[p] == old(tmps)[p]
      ensures peer in tmps ==>
                var was, now := old(tmps)[peer], tmps[peer];
                && now.marked == was.marked && now.value.direct == was.value.direct
                && now.value.value == KadValue(was.value.value.session, was.value.value.stream, info)
    {
      if peer in tmps {
        tmps := tmps[peer := Aged(tmps[peer].marked, WithPeer(tmps[peer].value, info))];
      }
    }

    method RemoveTmp(peer: PeerId) returns (r: Option<Tmp>)
      modifies `tmps
      ensures tmps == old(tmps) - {peer}
      ensures r == if peer in old(tmps) then Some(old(tmps)[peer].value) else None
    {
      r := if peer in tmps then Some(tmps[peer].value) else None;
      tmps := tmps - {peer};
    }

    // Sweeps all four maps. `closed` are the temporary sessions told to close, in the
    // order in which the pass met them.
    method TimerClear() returns (closed: seq<(PeerId, Sender)>)
      modifies this
      ensures dhts == Swept(old(dhts)) && connects == Swept(old(connects))
      ensures results == Swept(old(results)) && tmps == Swept(old(tmps))
      ensures NoRepeats(closed)
      ensures forall p, s :: (p, s) in closed <==> p in old(tmps) && old(tmps)[p].marked && s == old(tmps)[p].value.value.session
    {
      var oldSockets, oldConnects, oldResults;
      dhts, oldSockets := Sweep(dhts);
      connects, oldConnects := Sweep(connects);
      results, oldResults := Sweep(results);
      var before := tmps;
      var dropped;
      tmps, dropped := Sweep(tmps);
      closed := [];
      for i := 0 to |dropped|
        invariant |closed| == i
        invariant forall j :: 0 <= j < i ==> dropped[j] in before && closed[j] == (dropped[j], before[dropped[j]].value.value.session)
      {
        assert dropped[i] in dropped;
        closed := closed + [(dropped[i], before[dropped[i]].value.value.session)];
      }
      assert tmps == Swept(old(tmps));
      forall p, s | p in before && before[p].marked && s == before[p].value.value.session ensures (p, s) in closed {
        var j :| 0 <= j < |dropped| && dropped[j] == p;
        assert closed[j] == (p, s);
      }
    }
  }

  // Marks what is unmarked, and collects and then removes what was marked.
  method Sweep<K(==, !new), V(!new)>(m: map<K, Aged<V>>) returns (out: map<K, Aged<V>>, deletes: seq<K>)
    ensures out == Swept(m)
    ensures NoRepeats(deletes)
    ensures forall k :: k in deletes <==> k in m && m[k].marked
  {
    out, deletes := m, [];
    var todo := m.Keys;
    while todo != {}
      invariant todo <= m.Keys && out.Keys == m.Keys
      invariant forall k :: k in m ==> out[k] == if k in todo then m[k] else Aged(true, m[k].value)
      invariant NoRepeats(deletes)
      invariant forall k :: k in deletes <==> k in m && k !in todo && m[k].marked
    {
      var k :| k in todo;
      if out[k].marked {
        deletes := deletes + [k];
      } else {
        out := out[k := Aged(true, out[k].value)];
      }
      todo := todo - {k};
    }
    for i := 0 to |deletes|
      invariant forall k :: k in out <==> k in m && k !in deletes[..i]
      invariant forall k :: k in out ==> out[k] == Aged(true, m[k].value)
    {
      assert deletes[..i + 1] == deletes[..i] + [deletes[i]];
      out := out - {deletes[i]};
    }
    assert deletes[..|deletes|] == deletes;
  }

  // ---------------------------------------------------------------- the life of an entry

  // What may happen to one of the request maps between two looks at it.
  datatype Event<K, V> = Push(key: K, value: V) | Drain(key: K) | Tick

  ghost function After<K(!new), V(!new)>(m: map<K, Aged<seq<V>>>, e: Event<K, V>): map<K, Aged<seq<V>>>
  {
    match e
    case Push(k, v) => Pushed(m, k, v)
    case Drain(k) => m - {k}
    case Tick => Swept(m)
  }

  ghost function Run<K(!new), V(!new)>(es: seq<Event<K, V>>): map<K, Aged<seq<V>>>
  {
    if es == [] then map[] else After(Run(es[..|es| - 1]), es[|es| - 1])
  }

  ghost function Ticks<K(!new), V(!new)>(es: seq<Event<K, V>>): nat
  {
    if es == [] then 0 else Ticks(es[..|es| - 1]) + if es[|es| - 1].Tick? then 1 else 0
  }

  ghost function Requests<K(!new), V(!new)>(es: seq<Event<K, V>>, k: K): seq<V>
  {
    if es == [] then []
    else
      var e, before := es[|es| - 1], Requests(es[..|es| - 1], k);
      if e.Push? && e.key == k then before + [e.value] else before
  }

  // `es[j]` is the push that created the entry `k` which is there after `es`: there was
  // none before it, and since then it was neither drained nor met by the timer twice.
  ghost predicate BornAt<K(!new), V(!new)>(es: seq<Event<K, V>>, k: K, j: nat)
  {
    && j < |es| && es[j].Push? && es[j].key == k
    && k !in Run(es[..j])
    && Drain(k) !in es[j + 1..]
    && Ticks(es[j + 1..]) <= 1
  }

  // An entry is there exactly when some push created it, and then it holds every request
  // since that push, in order, and is marked exactly when the timer has passed once.
  lemma {:induction false} QueueExact<K(!new), V(!new)>(es: seq<Event<K, V>>, k: K)
    ensures k in Run(es) <==> exists j: nat :: BornAt(es, k, j)
    ensures forall j: nat :: BornAt(es, k, j) ==> k in Run(es) && Run(es)[k] == Aged(Ticks(es[j + 1..]) == 1, Requests(es[j..], k))
  {
    forall j: nat | BornAt(es, k, j)
      ensures k in Run(es) && Run(es)[k] == Aged(Ticks(es[j + 1..]) == 1, Requests(es[j..], k))
    {
      QueueLives(es, k, j, |es| - j - 1);
      assert es[..|es|] == es;
    }
    if k in Run(es) {
      var j := Birth(es, k);
    }
  }

  lemma Snoc<K(!new), V(!new)>(q: seq<Event<K, V>>, e: Event<K, V>, k: K)
    ensures Run(q + [e]) == After(Run(q), e)
    ensures Ticks(q + [e]) == Ticks(q) + if e.Tick? then 1 else 0
    ensures Requests(q + [e], k) == if e.Push? && e.key == k then Requests(q, k) + [e.value] else Requests(q, k)
  {
    assert (q + [e])[..|q|] == q;
  }

  lemma {:induction false} TicksOfPrefix<K(!new), V(!new)>(q: seq<Event<K, V>>, n: nat)
    requires n <= |q|
    ensures Ticks(q[..n]) <= Ticks(q)
  {
    if n < |q| {
      TicksOfPrefix(q[..|q| - 1], n);
      assert q[..|q| - 1][..n] == q[..n];
    } else {
      assert q[..n] == q;
    }
  }

  // What the entry created at `j` is after the events `now`.
  ghost predicate Holds<K(!new), V(!new)>(now: seq<Event<K, V>>, k: K, j: nat)
    requires j < |now|
  {
    k in Run(now) && Run(now)[k] == Aged(Ticks(now[j + 1..]) == 1, Requests(now[j..], k))
  }

  lemma DropOfSnoc<T>(q: seq<T>, e: T, j: nat)
    requires j <= |q|
    ensures (q + [e])[j..] == q[j..] + [e]
  {
  }

  lemma TakeOneMore<T>(q: seq<T>, n: nat)
    requires n < |q|
    ensures q[..n + 1] == q[..n] + [q[n]]
  {
  }

  lemma DropThenTake<T>(q: seq<T>, j: nat, n: nat)
    requires j + n <= |q|
    ensures q[j..][..n] == q[..j + n][j..]
  {
  }

  lemma HoldsAtBirth<K(!new), V(!new)>(before: seq<Event<K, V>>, k: K, v: V)
    requires k !in Run(before)
    ensures Holds(before + [Push(k, v)], k, |before|)
  {
    var e := Push(k, v);
    var now := before + [e];
    Snoc(before, e, k);
    assert now[|before| + 1..] == [] && now[|before|..] == [] + [e];
    Snoc([], e, k);
    assert Requests([] + [e], k) == [v];
  }

  lemma HoldsAfter<K(!new), V(!new)>(prev: seq<Event<K, V>>, e: Event<K, V>, k: K, j: nat)
    requires j < |prev| && Holds(prev, k, j) && e != Drain(k)
    requires e.Tick? ==> Ticks(prev[j + 1..]) == 0
    ensures Holds(prev + [e], k, j)
  {
    Snoc(prev, e, k);
    DropOfSnoc(prev, e, j);
    DropOfSnoc(prev, e, j + 1);
    Snoc(prev[j..], e, k);
    Snoc(prev[j + 1..], e, k);
    EntryAfter(Run(prev), e, k, Ticks(prev[j + 1..]), Requests(prev[j..], k));
  }

  // What one event makes of an entry that has seen `ticks` of the timer and holds `requests`.
  lemma EntryAfter<K(!new), V(!new)>(m: map<K, Aged<seq<V>>>, e: Event<K, V>, k: K, ticks: nat, requests: seq<V>)
    requires k in m && m[k] == Aged(ticks == 1, requests) && e != Drain(k) && (e.Tick? ==> ticks == 0)
    ensures k in After(m, e)
    ensures After(m, e)[k] == Aged(ticks + (if e.Tick? then 1 else 0) == 1, if e.Push? && e.key == k then requests + [e.value] else requests)
  {
    match e
    case Push(_, _) =>
    case Drain(_) =>
    case Tick => assert !m[k].marked;
  }

  // The event at `j + n` neither drains the entry created at `j` nor sweeps it a second time.
  lemma NotYetSwept<K(!new), V(!new)>(es: seq<Event<K, V>>, k: K, j: nat, n: nat)
    requires BornAt(es, k, j) && 1 <= n && j + n < |es|
    ensures es[j + n] != Drain(k)
    ensures es[j + n].Tick? ==> Ticks(es[..j + n][j + 1..]) == 0
  {
    var e := es[j + n];
    assert e == es[j + 1..][n - 1];
    TicksOfPrefix(es[j + 1..], n);
    DropThenTake(es, j + 1, n);
    TakeOneMore(es, j + n);
    DropOfSnoc(es[..j + n], e, j + 1);
    Snoc(es[..j + n][j + 1..], e, k);
  }

  lemma {:induction false} QueueLives<K(!new), V(!new)>(es: seq<Event<K, V>>, k: K, j: nat, n: nat)
    requires BornAt(es, k, j) && j + 1 + n <= |es|
    ensures Holds(es[..j + 1 + n], k, j)
    decreases n
  {
    var prev, e := es[..j + n], es[j + n];
    TakeOneMore(es, j + n);
    if n == 0 {
      HoldsAtBirth(prev, k, e.value);
    } else {
      QueueLives(es, k, j, n - 1);
      NotYetSwept(es, k, j, n);
      HoldsAfter(prev, e, k, j);
    }
  }

  lemma {:induction false} Birth<K(!new), V(!new)>(es: seq<Event<K, V>>, k: K) returns (j: nat)
    requires k in Run(es)
    ensures BornAt(es, k, j)
  {
    var n := |es| - 1;
    var prev, e := es[..n], es[n];
    assert es == prev + [e];
    Snoc(prev, e, k);
    if k in Run(prev) {
      j := Birth(prev, k);
      QueueLives(prev, k, j, n - j - 1);
      assert prev[..n] == prev && Holds(prev, k, j);
      StillBorn(prev, e, k, j);
    } else {
      j := n;
      assert es[j + 1..] == [];
    }
  }

  lemma StillBorn<K(!new), V(!new)>(prev: seq<Event<K, V>>, e: Event<K, V>, k: K, j: nat)
    requires BornAt(prev, k, j) && Holds(prev, k, j) && k in After(Run(prev), e)
    ensures BornAt(prev + [e], k, j)
  {
    var now := prev + [e];
    assert now[..j] == prev[..j] && now[j + 1..] == prev[j + 1..] + [e];
    Snoc(prev[j + 1..], e, k);
  }

  // ---------------------------------------------------------------- the life of a temporary session

  datatype TmpEvent = Put(peer: PeerId, tmp: Tmp) | Revise(peer: PeerId, info: Peer) | Take(peer: PeerId) | Timer

  ghost function TmpsAfter(m: map<PeerId, Aged<Tmp>>, es: seq<TmpEvent>): map<PeerId, Aged<Tmp>>
  {
    if es == [] then m
    else
      var before := TmpsAfter(m, es[..|es| - 1]);
      match es[|es| - 1]
      case Put(p, t) => before[p := Aged(false, t)]
      case Revise(p, info) => Revised(before, p, info)
      case Take(p) => before - {p}
      case Timer => Swept(before)
  }

  // A temporary session after the revisions among `es` that are about its peer.
  ghost function RevisedBy(t: Tmp, p: PeerId, es: seq<TmpEvent>): Tmp
  {
    if es == [] then t
    else
      var before, e := RevisedBy(t, p, es[..|es| - 1]), es[|es| - 1];
      if e.Revise? && e.peer == p then WithPeer(before, e.info) else before
  }

  ghost function Timers(es: seq<TmpEvent>): nat
  {
    if es == [] then 0 else Timers(es[..|es| - 1]) + if es[|es| - 1].Timer? then 1 else 0
  }

  // A temporary session that is neither replaced nor taken is unmarked until the timer
  // passes, marked until it passes again, and then gone for good; what is learnt of its
  // peer in the meantime does not make it live longer.
  lemma {:induction false} TmpLife(m: map<PeerId, Aged<Tmp>>, p: PeerId, t: Tmp, es: seq<TmpEvent>)
    requires forall e :: e in es && (e.Put? || e.Take?) ==> e.peer != p
    ensures var m' := TmpsAfter(m[p := Aged(false, t)], es);
            if Timers(es) < 2 then p in m' && m'[p] == Aged(Timers(es) == 1, RevisedBy(t, p, es)) else p !in m'
  {
    if es == [] {
    } else {
      var n := |es| - 1;
      assert es[n] in es && forall e :: e in es[..n] ==> e in es;
      TmpLife(m, p, t, es[..n]);
    }
  }
}

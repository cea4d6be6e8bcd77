/**
 Whole runs of adds and removes on one routing tree, over the maps the tree stands for.
 Each step is what `KadTree.Add` and `KadTree.Remove` promise; no trie is mentioned.
 */
module Runs {
  import opened Bytes
  import opened Metric
  import opened Trie
  import opened RootTrie

  datatype Op<K> = Add(key: K, id: U32) | Remove(key: K)

  ghost predicate Step<K(!new)>(s: Space<K>, m: map<K, U32>, op: Op<K>, m': map<K, U32>)
    requires s.Valid()
  {
    match op
    case Add(key, id) => exists ok, removed :: Outcome(ok, removed, m') in AddOutcomes(s, m, key, id)
    case Remove(key) => m' == m - {key}
  }

  // `ms` are the contents before the first operation and after each one.
  ghost predicate IsRun<K(!new)>(s: Space<K>, ops: seq<Op<K>>, ms: seq<map<K, U32>>)
    requires s.Valid()
  {
    && |ms| == |ops| + 1
    && forall i :: 0 <= i < |ops| ==> Step(s, ms[i], ops[i], ms[i + 1])
  }

  // ---------------------------------------------------------------- capacity

  lemma MatesOfFewer<K(!new)>(s: Space<K>, m: map<K, U32>, m': map<K, U32>)
    requires s.Valid() && Balanced(s, m) && m'.Keys <= m.Keys
    ensures Balanced(s, m')
  {
    forall key ensures |Mates(s, m', key)| <= K_BUCKET {
      SubsetSize(Mates(s, m', key), Mates(s, m, key));
    }
  }

  lemma MatesOfOneMore<K(!new)>(s: Space<K>, m: map<K, U32>, key: K, id: U32)
    requires s.Valid() && Balanced(s, m) && |Mates(s, m, key)| < K_BUCKET
    ensures Balanced(s, m[key := id])
  {
    var m' := m[key := id];
    forall k ensures |Mates(s, m', k)| <= K_BUCKET {
      if s.dist(k)[..MAX_LEVEL] == s.dist(key)[..MAX_LEVEL] {
        assert Mates(s, m, k) == Mates(s, m, key);
        assert Mates(s, m', k) == Mates(s, m, k) + {key};
      } else {
        assert Mates(s, m', k) == Mates(s, m, k);
      }
    }
  }

  lemma StepKeepsBalance<K(!new)>(s: Space<K>, m: map<K, U32>, op: Op<K>, m': map<K, U32>)
    requires s.Valid() && Balanced(s, m) && Step(s, m, op, m')
    ensures Balanced(s, m')
  {
    if op.Remove? || m'.Keys <= m.Keys {
      MatesOfFewer(s, m, m');
    } else {
      var ok, removed :| Outcome(ok, removed, m') in AddOutcomes(s, m, op.key, op.id);
      if |Mates(s, m, op.key)| < K_BUCKET {
        MatesOfOneMore(s, m, op.key, op.id);
      } else {
        var e :| e in FartherMates(s, m, op.key) && Outcome(ok, removed, m') == Evicting(m, op.key, op.id, e);
        MatesOfFewer(s, m, m - {e});
        assert Mates(s, m - {e}, op.key) == Mates(s, m, op.key) - {e};
        MatesOfOneMore(s, m - {e}, op.key, op.id);
      }
    }
  }

  // An add, read back from the two maps alone: a refused key is not there and nothing
  // changed, because four keys with the same first eight bits are all as close to the
  // root; an accepted key is bound to its id, every other binding is as before, and at
  // most one key went, which shares the first eight bits and is strictly farther from the
  // root. The report names the id that left, and no other.
  lemma AddExplained<K(!new)>(s: Space<K>, m: map<K, U32>, key: K, id: U32, o: Outcome<K>)
    requires s.Valid() && Balanced(s, m) && o in AddOutcomes(s, m, key, id)
    ensures !o.ok ==> key !in m && o.contents == m && o.removed == [] && |Mates(s, m, key)| == K_BUCKET
    ensures !o.ok <==> key !in m && |Mates(s, m, key)| == K_BUCKET && forall e :: e in Mates(s, m, key) ==> !Less(s.dist(key), s.dist(e))
    ensures o.ok ==> key in o.contents && o.contents[key] == id
    ensures forall k :: k in o.contents && k != key ==> k in m && o.contents[k] == m[k]
    ensures forall e :: e in m && e !in o.contents ==>
              && key !in m && |Mates(s, m, key)| == K_BUCKET && o.removed == [m[e]]
              && s.dist(e)[..MAX_LEVEL] == s.dist(key)[..MAX_LEVEL] && Less(s.dist(key), s.dist(e))
    ensures |m.Keys - o.contents.Keys| <= 1
    ensures key in m ==> o.removed == [m[key]] && m.Keys == o.contents.Keys
    ensures key !in m && m.Keys <= o.contents.Keys ==> o.removed == []
  {
    if key in m {
      assert o == Outcome(true, [m[key]], m[key := id]);
      assert m.Keys - o.contents.Keys == {};
    } else if |Mates(s, m, key)| < K_BUCKET {
      assert o == Outcome(true, [], m[key := id]);
      assert m.Keys - o.contents.Keys == {};
    } else if FartherMates(s, m, key) != {} {
      EvictionExplained(s, m, key, id, o);
    } else {
      RefusalExplained(s, m, key, o);
    }
  }

  lemma EvictionExplained<K(!new)>(s: Space<K>, m: map<K, U32>, key: K, id: U32, o: Outcome<K>)
    requires s.Valid() && key !in m && FartherMates(s, m, key) != {}
    requires o in set e | e in FartherMates(s, m, key) :: Evicting(m, key, id, e)
    ensures exists e :: e in FartherMates(s, m, key) && o == Evicting(m, key, id, e) && m.Keys - o.contents.Keys == {e}
  {
    var e :| e in FartherMates(s, m, key) && o == Evicting(m, key, id, e);
    assert m.Keys - o.contents.Keys == {e};
  }

  lemma RefusalExplained<K(!new)>(s: Space<K>, m: map<K, U32>, key: K, o: Outcome<K>)
    requires s.Valid() && key !in m && FartherMates(s, m, key) == {} && o == Outcome(false, [], m)
    ensures m.Keys - o.contents.Keys == {}
    ensures forall e :: e in Mates(s, m, key) ==> !Less(s.dist(key), s.dist(e))
  {
    forall e | e in Mates(s, m, key) ensures !Less(s.dist(key), s.dist(e)) {
      assert e !in FartherMates(s, m, key);
    }
  }

  // Counting prefix by prefix: keys that share i bits number at most 4 * 2^(8 - i).
  lemma {:induction false} PrefixCapacity<K(!new)>(s: Space<K>, m: map<K, U32>, part: set<K>, p: Distance)
    requires s.Valid() && Balanced(s, m) && |p| <= MAX_LEVEL
    requires forall k :: k in part ==> k in m && p <= s.dist(k)
    ensures |part| <= K_BUCKET * Pow2(MAX_LEVEL - |p|)
    decreases MAX_LEVEL - |p|
  {
    if |p| == MAX_LEVEL {
      if part != {} {
        var key :| key in part;
        assert forall k :: k in part ==> s.dist(k)[..MAX_LEVEL] == p;
        SubsetSize(part, Mates(s, m, key));
      }
    } else {
      var ones := set k | k in part && s.dist(k)[|p|];
      var zeros := set k | k in part && !s.dist(k)[|p|];
      assert part == ones + zeros;
      PrefixCapacity(s, m, ones, p + [true]);
      PrefixCapacity(s, m, zeros, p + [false]);
    }
  }

  lemma BalancedCapacity<K(!new)>(s: Space<K>, m: map<K, U32>)
    requires s.Valid() && Balanced(s, m)
    ensures |m| <= 1024
  {
    PrefixCapacity(s, m, m.Keys, []);
    PowersOfTwo();
  }

  lemma EmptyIsBalanced<K(!new)>(s: Space<K>)
    requires s.Valid()
    ensures Balanced(s, map[])
  {
    var m: map<K, U32> := map[];
    assert forall key :: Mates(s, m, key) == {};
  }

  // After every run of adds and removes, from the empty table or from any other that a
  // run can have left, at most 1024 keys are held.
  lemma {:induction false} RunCapacity<K(!new)>(s: Space<K>, ops: seq<Op<K>>, ms: seq<map<K, U32>>, n: nat)
    requires s.Valid() && IsRun(s, ops, ms) && n < |ms|
    requires ms[0] == map[] || Balanced(s, ms[0])
    ensures Balanced(s, ms[n]) && |ms[n]| <= 1024
  {
    if n == 0 {
      EmptyIsBalanced(s);
    } else {
      RunCapacity(s, ops, ms, n - 1);
      assert Step(s, ms[n - 1], ops[n - 1], ms[n - 1 + 1]);
      StepKeepsBalance(s, ms[n - 1], ops[n - 1], ms[n]);
    }
    BalancedCapacity(s, ms[n]);
  }

  // ---------------------------------------------------------------- evictions

  // How much closer than the whole space a key is.
  ghost function Nearness<K(!new)>(s: Space<K>, k: K): (w: nat)
    requires s.Valid()
    ensures 1 <= w <= Pow2(s.len)
  {
    ValueBounded(s.dist(k));
    Pow2(s.len) - Value(s.dist(k))
  }

  ghost function Total<K(!new)>(s: Space<K>, keys: set<K>): nat
    requires s.Valid()
  {
    if keys == {} then 0
    else
      var k :| k in keys;
      Nearness(s, k) + Total(s, keys - {k})
  }

  lemma {:induction false} TotalWithout<K(!new)>(s: Space<K>, keys: set<K>, k: K)
    requires s.Valid() && k in keys
    ensures Total(s, keys) == Nearness(s, k) + Total(s, keys - {k})
    decreases keys
  {
    var x :| x in keys && Total(s, keys) == Nearness(s, x) + Total(s, keys - {x});
    if x == k {
    } else {
      TotalWithout(s, keys - {x}, k);
      TotalWithout(s, keys - {k}, x);
      assert keys - {x} - {k} == keys - {k} - {x};
    }
  }

  lemma {:induction false} TotalBounded<K(!new)>(s: Space<K>, keys: set<K>)
    requires s.Valid()
    ensures Total(s, keys) <= |keys| * Pow2(s.len)
    decreases keys
  {
    if keys == {} {
    } else {
      var k :| k in keys;
      TotalWithout(s, keys, k);
      TotalBounded(s, keys - {k});
      assert |keys| * Pow2(s.len) == (|keys| - 1) * Pow2(s.len) + Pow2(s.len);
    }
  }

  // An add threw a key out.
  ghost predicate Evicted<K(!new)>(m: map<K, U32>, m': map<K, U32>)
  {
    !(m.Keys <= m'.Keys)
  }

  // Every add keeps or raises the total nearness, and an eviction raises it: the key
  // that came is strictly closer to the root than the one that went.
  lemma AddRaisesTotal<K(!new)>(s: Space<K>, m: map<K, U32>, op: Op<K>, m': map<K, U32>)
    requires s.Valid() && op.Add? && Step(s, m, op, m')
    ensures Total(s, m.Keys) + (if Evicted(m, m') then 1 else 0) <= Total(s, m'.Keys)
    ensures op.key in m ==> Total(s, m'.Keys) == Total(s, m.Keys) && !Evicted(m, m')
  {
    var ok, removed :| Outcome(ok, removed, m') in AddOutcomes(s, m, op.key, op.id);
    if op.key in m {
      assert m'.Keys == m.Keys;
    } else if |Mates(s, m, op.key)| < K_BUCKET {
      NewKeyRaisesTotal(s, m, op.key, op.id);
    } else if FartherMates(s, m, op.key) != {} {
      var e :| e in FartherMates(s, m, op.key) && Outcome(ok, removed, m') == Evicting(m, op.key, op.id, e);
      EvictionRaisesTotal(s, m, op.key, op.id, e);
    }
  }

  lemma NewKeyRaisesTotal<K(!new)>(s: Space<K>, m: map<K, U32>, key: K, id: U32)
    requires s.Valid() && key !in m
    ensures Total(s, m.Keys) <= Total(s, m[key := id].Keys) && !Evicted(m, m[key := id])
  {
    var keys := m[key := id].Keys;
    assert keys - {key} == m.Keys;
    TotalWithout(s, keys, key);
  }

  lemma EvictionRaisesTotal<K(!new)>(s: Space<K>, m: map<K, U32>, key: K, id: U32, e: K)
    requires s.Valid() && key !in m && e in m && Less(s.dist(key), s.dist(e))
    ensures Total(s, m.Keys) + 1 <= Total(s, (m - {e})[key := id].Keys)
  {
    var keys := (m - {e})[key := id].Keys;
    assert keys - {key} == m.Keys - {e};
    TotalWithout(s, keys, key);
    TotalWithout(s, m.Keys, e);
    LessMeansSmaller(s.dist(key), s.dist(e));
  }

  // A remove lowers it by no more than one key is worth.
  lemma RemoveLowersTotal<K(!new)>(s: Space<K>, m: map<K, U32>, key: K)
    requires s.Valid()
    ensures Total(s, m.Keys) <= Total(s, (m - {key}).Keys) + Pow2(s.len)
  {
    assert (m - {key}).Keys == m.Keys - {key};
    if key in m {
      TotalWithout(s, m.Keys, key);
    } else {
      assert m.Keys - {key} == m.Keys;
    }
  }

  // How many of the adds of a run threw a key out.
  ghost function Evictions<K(!new)>(ops: seq<Op<K>>, ms: seq<map<K, U32>>): nat
    requires |ms| == |ops| + 1
  {
    if ops == [] then 0
    else
      var n := |ops| - 1;
      Evictions(ops[..n], ms[..n + 1]) + if ops[n].Add? && Evicted(ms[n], ms[n + 1]) then 1 else 0
  }

  ghost function Removes<K(!new)>(ops: seq<Op<K>>): nat
  {
    if ops == [] then 0 else Removes(ops[..|ops| - 1]) + if ops[|ops| - 1].Remove? then 1 else 0
  }

  // What the removes of a run can lower the total by.
  ghost function Lowered<K(!new)>(ops: seq<Op<K>>, most: nat): nat
  {
    if ops == [] then 0 else Lowered(ops[..|ops| - 1], most) + if ops[|ops| - 1].Remove? then most else 0
  }

  lemma {:induction false} LoweredByRemoves<K(!new)>(ops: seq<Op<K>>, most: nat)
    ensures Lowered(ops, most) == Removes(ops) * most
  {
    if ops == [] {
    } else {
      var before := ops[..|ops| - 1];
      LoweredByRemoves(before, most);
      SumOfProducts(Removes(before), 1, most);
    }
  }

  lemma SumOfProducts(a: nat, b: nat, c: nat)
    ensures a * c + b * c == (a + b) * c
  {
  }

  lemma {:induction false} EvictionsRaiseTotal<K(!new)>(s: Space<K>, ops: seq<Op<K>>, ms: seq<map<K, U32>>)
    requires s.Valid() && IsRun(s, ops, ms)
    ensures Total(s, ms[0].Keys) + Evictions(ops, ms) <= Total(s, ms[|ops|].Keys) + Lowered(ops, Pow2(s.len))
  {
    if ops == [] {
    } else {
      var n := |ops| - 1;
      assert IsRun(s, ops[..n], ms[..n + 1]);
      EvictionsRaiseTotal(s, ops[..n], ms[..n + 1]);
      assert Step(s, ms[n], ops[n], ms[n + 1]);
      if ops[n].Add? {
        AddRaisesTotal(s, ms[n], ops[n], ms[n + 1]);
      } else {
        RemoveLowersTotal(s, ms[n], ops[n].key);
      }
    }
  }

  lemma ProductGrows(a: nat, b: nat, c: nat)
    requires a <= b
    ensures a * c <= b * c
  {
  }

  // Only finitely many adds evict, however long the run and wherever it starts: a run
  // buys evictions only with its removes, at a price that depends on the key length alone.
  lemma FiniteEvictions<K(!new)>(s: Space<K>, ops: seq<Op<K>>, ms: seq<map<K, U32>>)
    requires s.Valid() && IsRun(s, ops, ms)
    requires ms[0] == map[] || Balanced(s, ms[0])
    ensures Evictions(ops, ms) <= 1024 * Pow2(s.len) + Removes(ops) * Pow2(s.len)
  {
    EvictionsRaiseTotal(s, ops, ms);
    LoweredByRemoves(ops, Pow2(s.len));
    RunCapacity(s, ops, ms, |ops|);
    TotalOfFew(s, ms[|ops|]);
  }

  lemma TotalOfFew<K(!new)>(s: Space<K>, m: map<K, U32>)
    requires s.Valid() && |m| <= 1024
    ensures Total(s, m.Keys) <= 1024 * Pow2(s.len)
  {
    TotalBounded(s, m.Keys);
    assert |m.Keys| == |m|;
    ProductGrows(|m.Keys|, 1024, Pow2(s.len));
  }

  lemma {:induction false} NoRemoves<K(!new)>(ops: seq<Op<K>>)
    requires forall i :: 0 <= i < |ops| ==> ops[i].Add?
    ensures Removes(ops) == 0
  {
    if ops == [] {
    } else {
      NoRemoves(ops[..|ops| - 1]);
    }
  }

  // In particular every stretch of adds in a run has a bound of its own, whatever was
  // added and removed before it.
  lemma FiniteEvictionsBetween<K(!new)>(s: Space<K>, ops: seq<Op<K>>, ms: seq<map<K, U32>>, i: nat, j: nat)
    requires s.Valid() && IsRun(s, ops, ms) && ms[0] == map[] && i <= j <= |ops|
    requires forall n :: i <= n < j ==> ops[n].Add?
    ensures Evictions(ops[i..j], ms[i..j + 1]) <= 1024 * Pow2(s.len)
  {
    RunCapacity(s, ops, ms, i);
    StretchIsRun(s, ops, ms, i, j);
    NoRemoves(ops[i..j]);
    FiniteEvictions(s, ops[i..j], ms[i..j + 1]);
  }

  lemma StretchIsRun<K(!new)>(s: Space<K>, ops: seq<Op<K>>, ms: seq<map<K, U32>>, i: nat, j: nat)
    requires s.Valid() && IsRun(s, ops, ms) && i <= j <= |ops|
    ensures IsRun(s, ops[i..j], ms[i..j + 1])
  {
    forall n | 0 <= n < j - i ensures Step(s, ms[i..j + 1][n], ops[i..j][n], ms[i..j + 1][n + 1]) {
      assert Step(s, ms[i + n], ops[i + n], ms[i + n + 1]);
    }
  }
}

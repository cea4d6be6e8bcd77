/**
 What a search of the routing trie finds (src/kad.rs:188-224, src/kad.rs:341-376).
 */
module Lookup {
  import opened Bytes
  import opened Metric
  import opened Trie
  import opened Wrappers

  // What `search` returns: a key, its id, and whether it is the key asked for.
  datatype Hit<K> = Hit(key: K, id: U32, exact: bool)

  function Max(len: nat): Distance
  {
    seq(len, _ => true)
  }

  // Position `j` of `list` is closest to the target, and closer than all ones.
  ghost predicate ClosestIn<K(!new)>(list: seq<Cell<K>>, distance: Distance, j: int)
    requires forall c :: c in list ==> |c.dist| == |distance|
  {
    if j < 0 then
      j == -1 && forall i :: 0 <= i < |list| ==> Xor(distance, list[i].dist) == Max(|distance|)
    else
      && j < |list|
      && Xor(distance, list[j].dist) != Max(|distance|)
      && forall i :: 0 <= i < |list| ==> !Less(Xor(distance, list[i].dist), Xor(distance, list[j].dist))
  }

  ghost predicate IsScan<K(!new)>(list: seq<Cell<K>>, key: K, distance: Distance, exact: int, closest: int)
    requires forall c :: c in list ==> |c.dist| == |distance|
  {
    if exact < 0 then
      exact == -1 && (forall c :: c in list ==> c.key != key) && ClosestIn(list, distance, closest)
    else
      exact < |list| && list[exact].key == key
  }

  lemma MaxIsGreatest(d: Distance)
    ensures Less(d, Max(|d|)) <==> d != Max(|d|)
    ensures !Less(Max(|d|), d)
  {
    LessTotal(d, Max(|d|), 0);
  }

  lemma ScanStep<K(!new)>(list: seq<Cell<K>>, c: Cell<K>, key: K, distance: Distance, closest: int)
    requires forall d :: d in list + [c] ==> |d.dist| == |distance|
    requires forall d :: d in list ==> |d.dist| == |distance|
    requires ClosestIn(list, distance, closest)
    ensures var best := if closest < 0 then Max(|distance|) else Xor(distance, list[closest].dist);
            ClosestIn(list + [c], distance, if Less(Xor(distance, c.dist), best) then |list| else closest)
  {
    assert c in list + [c];
    var x := Xor(distance, c.dist);
    MaxIsGreatest(x);
    if closest >= 0 {
      var best := Xor(distance, list[closest].dist);
      MaxIsGreatest(best);
      if Less(x, best) {
        LessTransitive(x, best, Max(|distance|));
        forall i | 0 <= i < |list| ensures !Less(Xor(distance, list[i].dist), x) {
          if Less(Xor(distance, list[i].dist), x) {
            LessTransitive(Xor(distance, list[i].dist), x, best);
          }
        }
        LessIrreflexive(x);
      }
    } else {
      LessIrreflexive(x);
      forall i | 0 <= i < |list| ensures !Less(Xor(distance, list[i].dist), x) {
        assert Xor(distance, list[i].dist) == Max(|distance|);
      }
    }
  }

  // No key of `m` is closer to `key` than the hit is; the flag tells whether it is `key`.
  ghost predicate IsClosest<K(!new)>(s: Space<K>, m: map<K, U32>, key: K, h: Hit<K>)
    requires s.Valid()
  {
    && h.key in m && m[h.key] == h.id
    && (h.exact <==> h.key == key)
    && forall k :: k in m ==> !Less(Xor(s.dist(key), s.dist(k)), Xor(s.dist(key), s.dist(h.key)))
  }

  // The bucket at the end of the path that the bits of `d` spell below `t`.
  ghost function Bucket<K(!new)>(t: Trie<K>, d: Distance, index: nat): seq<Cell<K>>
    requires Bounded(t, index) && MAX_LEVEL < |d|
    decreases t
  {
    if t.Nil? then []
    else if t.IsLeaf() then t.list
    else Bucket(if d[index] then t.right else t.left, d, index + 1)
  }

  // The only path read decides: nothing is found exactly when the bucket at its end
  // holds no cell, or only cells at the all-ones distance; what is found is a closest
  // key of the whole subtree; and a stored key is always found as itself.
  ghost predicate IsSearch<K(!new)>(s: Space<K>, t: Trie<K>, key: K, index: nat, r: Option<Hit<K>>)
    requires s.Valid()
  {
    && Bounded(t, index)
    && (r.None? <==> forall c :: c in Bucket(t, s.dist(key), index) ==> Opposite(s.dist(key), c.dist))
    && (r.Some? ==> IsClosest(s, Bindings(t), key, r.value))
    && (key in Bindings(t) ==> r.Some? && r.value.exact)
  }

  ghost predicate Opposite(a: Distance, b: Distance)
  {
    |a| == |b| && Xor(a, b) == Max(|a|)
  }

  lemma ExactHit<K(!new)>(s: Space<K>, t: Trie<K>, p: Distance, key: K, j: nat)
    requires s.Valid() && t.Fork? && Wf(s, t, p) && j < |t.list| && t.list[j].key == key
    ensures IsSearch(s, t, key, |p|, Some(Hit(t.list[j].key, t.list[j].id, true)))
  {
    WfBounded(s, t, p);
    LeafBindings(t.list);
    var d := s.dist(key);
    BindingOf(t.list, t.list[j]);
    assert Xor(d, d)[0] != Max(|d|)[0];
    assert t.list[j] in Bucket(t, d, |p|);
  }

  lemma NoExactHit<K(!new)>(s: Space<K>, t: Trie<K>, p: Distance, key: K, closest: int)
    requires s.Valid() && t.IsLeaf() && Wf(s, t, p) && IsScan(t.list, key, s.dist(key), -1, closest)
    ensures IsSearch(s, t, key, |p|, if closest >= 0 then Some(Hit(t.list[closest].key, t.list[closest].id, false)) else None)
  {
    WfBounded(s, t, p);
    LeafBindings(t.list);
    var d := s.dist(key);
    if closest >= 0 {
      BindingOf(t.list, t.list[closest]);
    }
    forall k | k in Bindings(t) ensures exists i :: 0 <= i < |t.list| && t.list[i].key == k && t.list[i].dist == s.dist(k) {
      var c := CellOf(t.list, k);
      var i :| 0 <= i < |t.list| && t.list[i] == c;
    }
  }

  lemma OnSide<K(!new)>(s: Space<K>, t: Trie<K>, p: Distance, b: bool, k: K)
    requires s.Valid() && |p| < MAX_LEVEL && Wf(s, t, p + [b]) && k in Bindings(t)
    ensures s.dist(k)[..|p|] == p && s.dist(k)[|p|] == b
  {
    KeysOnPath(s, t, p + [b]);
    assert p + [b] <= s.dist(k);
    assert (p + [b])[..|p|] == p;
  }

  // A closest key on the target's side of a node is closest in both subtrees.
  lemma ClosestLifts<K(!new)>(s: Space<K>, l: Trie<K>, r: Trie<K>, p: Distance, key: K, h: Hit<K>)
    requires s.Valid() && |p| < MAX_LEVEL && Wf(s, l, p + [false]) && Wf(s, r, p + [true])
    requires IsClosest(s, Bindings(if s.dist(key)[|p|] then r else l), key, h)
    ensures IsClosest(s, Bindings(l) + Bindings(r), key, h)
  {
    var d, e := s.dist(key), s.dist(h.key);
    var near, far := if d[|p|] then r else l, if d[|p|] then l else r;
    OnSide(s, near, p, d[|p|], h.key);
    if h.key in Bindings(far) {
      OnSide(s, far, p, !d[|p|], h.key);
    }
    forall k | k in Bindings(far) ensures !Less(Xor(d, s.dist(k)), Xor(d, e)) {
      OnSide(s, far, p, !d[|p|], k);
      LongerSharedPathIsCloser(d, e, s.dist(k), |p|);
      LessAsymmetric(Xor(d, e), Xor(d, s.dist(k)));
    }
  }

  lemma SearchLifts<K(!new)>(s: Space<K>, t: Trie<K>, p: Distance, key: K, r: Option<Hit<K>>)
    requires s.Valid() && t.Fork? && !t.IsLeaf() && Wf(s, t, p)
    requires IsSearch(s, if s.dist(key)[|p|] then t.right else t.left, key, |p| + 1, r)
    ensures IsSearch(s, t, key, |p|, r)
  {
    WfBounded(s, t, p);
    NodeBindings(t.left, t.right);
    SidesApart(s, t.left, t.right, p);
    if r.Some? {
      ClosestLifts(s, t.left, t.right, p, key, r.value);
    }
  }

  lemma NothingToFind<K(!new)>(s: Space<K>, key: K, index: nat)
    requires s.Valid()
    ensures IsSearch(s, Nil, key, index, None)
  {
  }

  // A stored key that shares the first eight bits with the target is in the bucket at the
  // end of the target's path.
  lemma {:induction false} MateInBucket<K(!new)>(s: Space<K>, t: Trie<K>, p: Distance, key: K, mate: K)
    requires s.Valid() && Wf(s, t, p) && mate in Bindings(t) && s.dist(mate)[..MAX_LEVEL] == s.dist(key)[..MAX_LEVEL]
    ensures Bounded(t, |p|) && exists c :: c in Bucket(t, s.dist(key), |p|) && c.key == mate && c.dist == s.dist(mate)
    decreases t
  {
    WfBounded(s, t, p);
    if t.IsLeaf() {
      LeafBindings(t.list);
      var c := CellOf(t.list, mate);
    } else if t.Fork? {
      var b := s.dist(key)[|p|];
      MateOnSide(s, t, p, key, mate);
      MateInBucket(s, if b then t.right else t.left, p + [b], key, mate);
    }
  }

  lemma MateOnSide<K(!new)>(s: Space<K>, t: Trie<K>, p: Distance, key: K, mate: K)
    requires s.Valid() && t.Fork? && !t.IsLeaf() && Wf(s, t, p)
    requires mate in Bindings(t) && s.dist(mate)[..MAX_LEVEL] == s.dist(key)[..MAX_LEVEL]
    ensures mate in Bindings(if s.dist(key)[|p|] then t.right else t.left)
  {
    NodeBindings(t.left, t.right);
    SidesApart(s, t.left, t.right, p);
    assert s.dist(mate)[..MAX_LEVEL][|p|] == s.dist(key)[..MAX_LEVEL][|p|];
  }

  // ---------------------------------------------------------------- removing

  ghost function Bound<K(!new)>(m: map<K, U32>, key: K): Option<U32>
  {
    if key in m then Some(m[key]) else None
  }

  // `t'` is `t` without `key`, and `r` is the id that went, if one did.
  ghost predicate IsRemoval<K(!new)>(s: Space<K>, t: Trie<K>, p: Distance, key: K, t': Trie<K>, r: Option<U32>)
    requires s.Valid()
  {
    Wf(s, t', p) && Bindings(t') == Bindings(t) - {key} && r == Bound(Bindings(t), key)
  }

  // A bucket that holds the key gives it up ...
  lemma RemoveFromBucket<K(!new)>(s: Space<K>, list: seq<Cell<K>>, p: Distance, key: K)
    requires s.Valid() && 1 <= |p| <= MAX_LEVEL && WfList(s, list, p) && 0 <= LastMatch(list, key)
    ensures var j := LastMatch(list, key);
            IsRemoval(s, Leaf(list), p, key, Leaf(RemoveAt(list, j)), Some(list[j].id))
  {
    var j := LastMatch(list, key);
    LeafBindings(list);
    RemoveAtDistinct(list, j);
    ListRemove(list, j);
    BindingOf(list, list[j]);
    LeafBindings(RemoveAt(list, j));
  }

  // ... and one without a match does not hold it.
  lemma NotInBucket<K(!new)>(list: seq<Cell<K>>, key: K)
    requires LastMatch(list, key) < 0
    ensures key !in Bindings(Leaf(list))
  {
    LeafBindings(list);
    if key in ListBindings(list) {
      var c := CellOf(list, key);
    }
  }

  // A key lies only on the side its bit names.
  lemma RemoveSplits<K(!new)>(s: Space<K>, l: Trie<K>, r: Trie<K>, p: Distance, key: K)
    requires s.Valid() && |p| < MAX_LEVEL && Wf(s, l, p + [false]) && Wf(s, r, p + [true])
    ensures key !in Bindings(if s.dist(key)[|p|] then l else r)
    ensures (Bindings(l) + Bindings(r)) - {key} ==
            if s.dist(key)[|p|] then Bindings(l) + (Bindings(r) - {key}) else (Bindings(l) - {key}) + Bindings(r)
  {
    assert key !in Bindings(if s.dist(key)[|p|] then l else r) by {
      SidesApart(s, l, r, p);
    }
    UnionMinus(Bindings(l), Bindings(r), key);
  }

  lemma UnionMinus<K(!new), V(!new)>(a: map<K, V>, b: map<K, V>, k: K)
    ensures k !in a ==> (a + b) - {k} == a + (b - {k})
    ensures k !in b ==> (a + b) - {k} == (a - {k}) + b
  {
  }

  // Taking a key out of the subtree its bit names takes it out of the node.
  lemma RemovedBelow<K(!new)>(s: Space<K>, t: Trie<K>, near: Trie<K>, p: Distance, key: K, r: Option<U32>)
    requires s.Valid() && t.Fork? && !t.IsLeaf() && near.Fork? && Wf(s, t, p)
    requires var b := s.dist(key)[|p|]; IsRemoval(s, if b then t.right else t.left, p + [b], key, near, r)
    ensures IsRemoval(s, t, p, key, if s.dist(key)[|p|] then Fork(t.left, near, []) else Fork(near, t.right, []), r)
  {
    RemoveSplits(s, t.left, t.right, p, key);
    NodeBindings(t.left, t.right);
    if s.dist(key)[|p|] {
      NodeBindings(t.left, near);
    } else {
      NodeBindings(near, t.right);
    }
  }

  lemma NotOnThisSide<K(!new)>(s: Space<K>, t: Trie<K>, p: Distance, key: K)
    requires s.Valid() && t.Fork? && Wf(s, t, p) && LastMatch(t.list, key) < 0
    requires (if s.dist(key)[|p|] then t.right else t.left).Nil?
    ensures IsRemoval(s, t, p, key, t, None)
  {
    if t.IsLeaf() {
      NotInBucket(t.list, key);
    } else {
      RemoveSplits(s, t.left, t.right, p, key);
      NodeBindings(t.left, t.right);
    }
  }

  lemma RemoveFromNil<K(!new)>(s: Space<K>, p: Distance, key: K)
    requires s.Valid()
    ensures IsRemoval(s, Nil, p, key, Nil, None)
  {
  }

  // ---------------------------------------------------------------- listing

  ghost function ListKeys<K(!new)>(list: seq<Cell<K>>): seq<K>
  {
    if list == [] then [] else ListKeys(list[..|list| - 1]) + [list[|list| - 1].key]
  }

  // The order in which the source's traversal pushes keys.
  ghost function KeysOf<K(!new)>(t: Trie<K>): seq<K>
  {
    if t.Nil? then [] else ListKeys(t.list) + KeysOf(t.left) + KeysOf(t.right)
  }

  // The same, pushed onto a vector that already holds `acc`.
  ghost function KeysInto<K(!new)>(t: Trie<K>, acc: seq<K>): seq<K>
    decreases t
  {
    if t.Nil? then acc else KeysInto(t.right, KeysInto(t.left, acc + ListKeys(t.list)))
  }

  lemma {:induction false} KeysIntoAppends<K(!new)>(t: Trie<K>, acc: seq<K>)
    ensures KeysInto(t, acc) == acc + KeysOf(t)
    decreases t
  {
    if t.Nil? {
    } else {
      var a := acc + ListKeys(t.list);
      KeysIntoAppends(t.left, a);
      KeysIntoAppends(t.right, a + KeysOf(t.left));
    }
  }

  ghost predicate NoRepeats<T(!new)>(q: seq<T>)
  {
    forall i, j :: 0 <= i < j < |q| ==> q[i] != q[j]
  }

  lemma {:induction false} ListKeysExact<K(!new)>(list: seq<Cell<K>>)
    requires Distinct(list)
    ensures NoRepeats(ListKeys(list))
    ensures forall k :: k in ListKeys(list) <==> k in ListBindings(list)
  {
    if list == [] {
    } else {
      ListKeysExact(list[..|list| - 1]);
      NewKey(list, list[..|list| - 1]);
    }
  }

  // The traversal lists every stored key, no other key, and none twice.
  lemma {:induction false} KeysExact<K(!new)>(s: Space<K>, t: Trie<K>, p: Distance)
    requires s.Valid() && Wf(s, t, p)
    ensures NoRepeats(KeysOf(t))
    ensures forall k :: k in KeysOf(t) <==> k in Bindings(t)
    decreases t
  {
    if t.IsLeaf() {
      LeafBindings(t.list);
      ListKeysExact(t.list);
      assert KeysOf(t) == ListKeys(t.list);
    } else if t.Fork? {
      KeysExact(s, t.left, p + [false]);
      KeysExact(s, t.right, p + [true]);
      NodeBindings(t.left, t.right);
      ForkKeys(t);
      forall k | k in KeysOf(t.left) ensures k !in KeysOf(t.right) {
        OnSide(s, t.left, p, false, k);
        if k in KeysOf(t.right) {
          OnSide(s, t.right, p, true, k);
        }
      }
      JoinNoRepeats(KeysOf(t.left), KeysOf(t.right));
    }
  }

  lemma ForkKeys<K(!new)>(t: Trie<K>)
    requires t.Fork? && t.list == []
    ensures KeysOf(t) == KeysOf(t.left) + KeysOf(t.right)
  {
  }

  lemma JoinNoRepeats<T(!new)>(a: seq<T>, b: seq<T>)
    requires NoRepeats(a) && NoRepeats(b)
    requires forall x :: x in a ==> x !in b
    ensures NoRepeats(a + b)
  {
    forall i, j | 0 <= i < j < |a + b| ensures (a + b)[i] != (a + b)[j] {
      if i < |a| <= j {
        assert (a + b)[i] in a && (a + b)[j] in b;
      }
    }
  }

  // ---------------------------------------------------------------- capacity

  // A node at level i holds at most 4 * 2^(8 - i) keys.
  lemma {:induction false} Capacity<K(!new)>(s: Space<K>, t: Trie<K>, p: Distance)
    requires s.Valid() && Wf(s, t, p) && |p| <= MAX_LEVEL
    ensures |Bindings(t)| <= K_BUCKET * Pow2(MAX_LEVEL - |p|)
    decreases t
  {
    if t.IsLeaf() {
      LeafBindings(t.list);
      BucketSize(t.list);
    } else if t.Fork? {
      Capacity(s, t.left, p + [false]);
      Capacity(s, t.right, p + [true]);
      NodeBindings(t.left, t.right);
      UnionSize(Bindings(t.left), Bindings(t.right));
    }
  }

  lemma UnionSize<K(!new)>(a: map<K, U32>, b: map<K, U32>)
    ensures |a + b| <= |a| + |b|
  {
    assert (a + b).Keys == a.Keys + b.Keys;
  }
}

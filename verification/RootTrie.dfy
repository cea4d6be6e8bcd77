/**
 The two nodes under the root of a routing tree, as values: `KadTree` of src/kad.rs.
 */
module RootTrie {
  import opened Bytes
  import opened Metric
  import opened Trie
  import opened Wrappers
  import opened Lookup

  ghost predicate WfRoot<K(!new)>(s: Space<K>, l: Trie<K>, r: Trie<K>)
    requires s.Valid()
  {
    Wf(s, l, [false]) && Wf(s, r, [true])
  }

  ghost function Merged<K(!new)>(l: Trie<K>, r: Trie<K>): map<K, U32>
  {
    Bindings(l) + Bindings(r)
  }

  lemma RootPaths()
    ensures [] + [false] == [false] && [] + [true] == [true]
  {
  }

  lemma RootAddRight<K(!new)>(s: Space<K>, l: Trie<K>, r: Trie<K>, c: Cell<K>)
    requires s.Valid() && WfRoot(s, l, r) && c.dist == s.dist(c.key) && c.dist[0]
    ensures Bounded(OrDefault(r), 1)
    ensures var x := InsertInto(OrDefault(r), c, 1);
            && WfRoot(s, l, x.trie)
            && Outcome(x.ok, x.removed, Merged(l, x.trie)) in AddOutcomes(s, Merged(l, r), c.key, c.id)
  {
    RootPaths();
    DefaultWf(s, r, [true]);
    InsertRefines(s, OrDefault(r), c, [true]);
    var x := InsertInto(OrDefault(r), c, 1);
    StepOnRight(s, l, r, x.trie, c, [], x.ok, x.removed);
    NodeBindings(l, r);
    NodeBindings(l, x.trie);
  }

  lemma RootAddLeft<K(!new)>(s: Space<K>, l: Trie<K>, r: Trie<K>, c: Cell<K>)
    requires s.Valid() && WfRoot(s, l, r) && c.dist == s.dist(c.key) && !c.dist[0]
    ensures Bounded(OrDefault(l), 1)
    ensures var x := InsertInto(OrDefault(l), c, 1);
            && WfRoot(s, x.trie, r)
            && Outcome(x.ok, x.removed, Merged(x.trie, r)) in AddOutcomes(s, Merged(l, r), c.key, c.id)
  {
    RootPaths();
    DefaultWf(s, l, [false]);
    InsertRefines(s, OrDefault(l), c, [false]);
    var x := InsertInto(OrDefault(l), c, 1);
    StepOnLeft(s, l, r, x.trie, c, [], x.ok, x.removed);
    NodeBindings(l, r);
    NodeBindings(x.trie, r);
  }

  // Taking a key out of the side its first bit names takes it out of the tree.
  lemma RootRemoved<K(!new)>(s: Space<K>, l: Trie<K>, r: Trie<K>, l': Trie<K>, r': Trie<K>, key: K, id: Option<U32>)
    requires s.Valid() && WfRoot(s, l, r)
    requires if s.dist(key)[0] then l' == l && IsRemoval(s, r, [true], key, r', id) else r' == r && IsRemoval(s, l, [false], key, l', id)
    ensures WfRoot(s, l', r') && Merged(l', r') == Merged(l, r) - {key} && id == Bound(Merged(l, r), key)
  {
    RootPaths();
    RemoveSplits(s, l, r, [], key);
  }

  // The side of the root that a search reads: the target's, or the other one when
  // nothing was ever added on the target's side.
  ghost function SearchedSide<K(!new)>(l: Trie<K>, r: Trie<K>, d: Distance): Trie<K>
    requires d != []
  {
    if d[0] then if r.Nil? then l else r
    else if l.Nil? then r else l
  }

  // The bucket at the end of the one path read holds nothing but keys at the all-ones
  // distance from the target.
  ghost predicate Misses<K(!new)>(s: Space<K>, l: Trie<K>, r: Trie<K>, key: K)
    requires s.Valid()
  {
    var side := SearchedSide(l, r, s.dist(key));
    Bounded(side, 1) && forall c :: c in Bucket(side, s.dist(key), 1) ==> Opposite(s.dist(key), c.dist)
  }

  // What a search says about the map the tree stands for: it comes back with nothing
  // exactly when the path read leads to nothing, otherwise with a closest key, and with
  // the key asked for exactly when that is stored.
  ghost predicate Answers<K(!new)>(s: Space<K>, m: map<K, U32>, misses: bool, key: K, hit: Option<Hit<K>>)
    requires s.Valid()
  {
    && (hit.None? <==> misses)
    && (hit.Some? ==> IsClosest(s, m, key, hit.value))
    && (key in m <==> hit.Some? && hit.value.exact)
  }

  lemma RootSearch<K(!new)>(s: Space<K>, l: Trie<K>, r: Trie<K>, key: K, hit: Option<Hit<K>>)
    requires s.Valid() && WfRoot(s, l, r)
    requires IsSearch(s, SearchedSide(l, r, s.dist(key)), key, 1, hit)
    ensures Answers(s, Merged(l, r), Misses(s, l, r, key), key, hit)
  {
    RootPaths();
    if hit.Some? {
      RootClosest(s, l, r, key, hit.value);
    }
    RemoveSplits(s, l, r, [], key);
  }

  lemma RootClosest<K(!new)>(s: Space<K>, l: Trie<K>, r: Trie<K>, key: K, hit: Hit<K>)
    requires s.Valid() && WfRoot(s, l, r)
    requires IsClosest(s, Bindings(SearchedSide(l, r, s.dist(key))), key, hit)
    ensures IsClosest(s, Merged(l, r), key, hit)
  {
    var d := s.dist(key);
    RootPaths();
    if (if d[0] then r else l).Fork? {
      ClosestLifts(s, l, r, [], key, hit);
    } else {
      assert Bindings(l) + Bindings(r) == Bindings(SearchedSide(l, r, d));
    }
  }

  // A search never comes back with nothing when a stored key shares the first eight bits
  // with the target.
  lemma MateIsFound<K(!new)>(s: Space<K>, l: Trie<K>, r: Trie<K>, key: K, mate: K)
    requires s.Valid() && WfRoot(s, l, r)
    requires mate in Merged(l, r) && s.dist(mate)[..MAX_LEVEL] == s.dist(key)[..MAX_LEVEL]
    ensures !Misses(s, l, r, key)
  {
    var d := s.dist(key);
    OnOneSide(s, l, r, key, mate);
    var side := if d[0] then r else l;
    assert side.Fork?;
    MateInBucket(s, side, [d[0]], key, mate);
    var c :| c in Bucket(side, d, 1) && c.key == mate && c.dist == s.dist(mate);
    assert Xor(d, c.dist)[0] != Max(|d|)[0];
  }

  lemma RootKeys<K(!new)>(s: Space<K>, l: Trie<K>, r: Trie<K>)
    requires s.Valid() && WfRoot(s, l, r)
    ensures var ks := KeysInto(r, KeysInto(l, []));
            NoRepeats(ks) && forall k :: k in ks <==> k in Merged(l, r)
  {
    RootPaths();
    KeysIntoAppends(l, []);
    assert KeysInto(l, []) == KeysOf(l);
    KeysIntoAppends(r, KeysOf(l));
    KeysExact(s, l, [false]);
    KeysExact(s, r, [true]);
    forall k | k in KeysOf(l) ensures k !in KeysOf(r) {
      OnSide(s, l, [], false, k);
      if k in KeysOf(r) {
        OnSide(s, r, [], true, k);
      }
    }
    JoinNoRepeats(KeysOf(l), KeysOf(r));
  }

  // The bound in the comment at src/kad.rs:48: 4 * 256 = 1024 keys.
  lemma RootCapacity<K(!new)>(s: Space<K>, l: Trie<K>, r: Trie<K>)
    requires s.Valid() && WfRoot(s, l, r)
    ensures |Merged(l, r)| <= K_BUCKET * Pow2(MAX_LEVEL) == 1024
  {
    Capacity(s, l, [false]);
    Capacity(s, r, [true]);
    UnionSize(Bindings(l), Bindings(r));
    PowersOfTwo();
  }

  // No more than four keys share their first eight bits.
  ghost predicate Balanced<K(!new)>(s: Space<K>, m: map<K, U32>)
    requires s.Valid()
  {
    forall key :: |Mates(s, m, key)| <= K_BUCKET
  }

  lemma {:induction false} BucketSmall<K(!new)>(s: Space<K>, t: Trie<K>, p: Distance, d: Distance)
    requires s.Valid() && Wf(s, t, p) && MAX_LEVEL < |d|
    ensures Bounded(t, |p|) && |Bucket(t, d, |p|)| <= K_BUCKET
    decreases t
  {
    WfBounded(s, t, p);
    if t.Nil? || t.IsLeaf() {
    } else {
      BucketSmall(s, t.left, p + [false], d);
      BucketSmall(s, t.right, p + [true], d);
    }
  }

  ghost function CellKeys<K(!new)>(list: seq<Cell<K>>): set<K>
  {
    set c | c in list :: c.key
  }

  lemma {:induction false} FewCellKeys<K(!new)>(list: seq<Cell<K>>)
    ensures |CellKeys(list)| <= |list|
  {
    if list == [] {
      assert CellKeys(list) == {};
    } else {
      var init, last := list[..|list| - 1], list[|list| - 1];
      FewCellKeys(init);
      assert list == init + [last];
      assert CellKeys(list) == CellKeys(init) + {last.key};
    }
  }

  // A well-formed tree keeps all the keys that share their first eight bits in one bucket.
  lemma RootBalanced<K(!new)>(s: Space<K>, l: Trie<K>, r: Trie<K>)
    requires s.Valid() && WfRoot(s, l, r)
    ensures Balanced(s, Merged(l, r))
  {
    forall key ensures |Mates(s, Merged(l, r), key)| <= K_BUCKET {
      MatesInBucket(s, l, r, key);
    }
  }

  lemma MatesInBucket<K(!new)>(s: Space<K>, l: Trie<K>, r: Trie<K>, key: K)
    requires s.Valid() && WfRoot(s, l, r)
    ensures |Mates(s, Merged(l, r), key)| <= K_BUCKET
  {
    var d := s.dist(key);
    var side := if d[0] then r else l;
    BucketSmall(s, side, [d[0]], d);
    var bucket := Bucket(side, d, 1);
    forall mate | mate in Mates(s, Merged(l, r), key) ensures mate in CellKeys(bucket) {
      OnOneSide(s, l, r, key, mate);
      MateInBucket(s, side, [d[0]], key, mate);
    }
    FewCellKeys(bucket);
    SubsetSize(Mates(s, Merged(l, r), key), CellKeys(bucket));
  }

  lemma OnOneSide<K(!new)>(s: Space<K>, l: Trie<K>, r: Trie<K>, key: K, mate: K)
    requires s.Valid() && WfRoot(s, l, r)
    requires mate in Merged(l, r) && s.dist(mate)[..MAX_LEVEL] == s.dist(key)[..MAX_LEVEL]
    ensures mate in Bindings(if s.dist(key)[0] then r else l)
  {
    RootPaths();
    SidesApart(s, l, r, []);
    assert s.dist(mate)[..MAX_LEVEL][0] == s.dist(key)[..MAX_LEVEL][0];
  }

  lemma NothingListed<K(!new)>(s: Space<K>, t: Trie<K>, p: Distance)
    requires s.Valid() && Wf(s, t, p)
    ensures Bindings(t) == map[] <==> KeysOf(t) == []
  {
    KeysExact(s, t, p);
    if KeysOf(t) != [] {
      assert KeysOf(t)[0] in Bindings(t);
    }
  }

  lemma RootEmpty<K(!new)>(s: Space<K>, l: Trie<K>, r: Trie<K>)
    requires s.Valid() && WfRoot(s, l, r)
    ensures Merged(l, r) == map[] <==> KeysOf(l) == [] && KeysOf(r) == []
  {
    NothingListed(s, l, [false]);
    NothingListed(s, r, [true]);
    assert Merged(l, r).Keys == Bindings(l).Keys + Bindings(r).Keys;
  }

  // ---------------------------------------------------------------- between keys

  ghost predicate IsSpace<K(!new)>(root: K, bits: K -> Distance, len: nat, s: Space<K>)
  {
    && s.Valid() && s.len == len
    && (forall k :: |bits(k)| == len)
    && forall k :: s.dist(k) == Xor(bits(root), bits(k))
  }

  ghost function SpaceOf<K(!new)>(root: K, bits: K -> Distance, len: nat): (s: Space<K>)
    requires MAX_LEVEL < len && forall k :: |bits(k)| == len
    ensures IsSpace(root, bits, len, s)
  {
    Space(k => if |bits(root)| == |bits(k)| then Xor(bits(root), bits(k)) else [], len)
  }

  // What is closest from the root's point of view is closest between the keys: XOR with
  // the root cancels out.
  lemma ClosestBetweenKeys<K(!new)>(s: Space<K>, root: K, bits: K -> Distance, len: nat, m: map<K, U32>, key: K, h: Hit<K>)
    requires IsSpace(root, bits, len, s) && IsClosest(s, m, key, h)
    ensures forall k :: k in m ==> !Less(Xor(bits(key), bits(k)), Xor(bits(key), bits(h.key)))
  {
    forall k | k in m ensures !Less(Xor(bits(key), bits(k)), Xor(bits(key), bits(h.key))) {
      XorCancels(bits(root), bits(key), bits(k));
      XorCancels(bits(root), bits(key), bits(h.key));
    }
  }

  // When keys are told apart by their bits, as peer ids are, every other key is strictly
  // farther: the closest key is unique.
  lemma ClosestUnique<K(!new)>(s: Space<K>, root: K, bits: K -> Distance, len: nat, m: map<K, U32>, key: K, h: Hit<K>)
    requires IsSpace(root, bits, len, s) && IsClosest(s, m, key, h)
    requires forall k, k' :: bits(k) == bits(k') ==> k == k'
    ensures forall k :: k in m && k != h.key ==> Less(Xor(bits(key), bits(h.key)), Xor(bits(key), bits(k)))
  {
    ClosestBetweenKeys(s, root, bits, len, m, key, h);
    forall k | k in m && k != h.key ensures Less(Xor(bits(key), bits(h.key)), Xor(bits(key), bits(k))) {
      LessTotal(Xor(bits(key), bits(h.key)), Xor(bits(key), bits(k)), 0);
      XorInjective(bits(key), bits(h.key), bits(k));
    }
  }
}

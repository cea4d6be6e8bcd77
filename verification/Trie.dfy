/**
 The routing trie of src/kad.rs as a value: what a `Node` and everything below it
 hold. The lists are kept in the order of the source's vectors, and an internal
 node still has a (normally empty) list, because the source's node does.
 */
module Trie {
  import opened Bytes
  import opened Metric

  const MAX_LEVEL: nat := 8
  const K_BUCKET: nat := 4

  datatype Cell<K> = Cell(key: K, id: U32, dist: Distance)

  datatype Trie<K> = Nil | Fork(left: Trie<K>, right: Trie<K>, list: seq<Cell<K>>)
  {
    predicate IsLeaf()
    {
      Fork? && left.Nil? && right.Nil?
    }
  }

  function Leaf<K(!new)>(list: seq<Cell<K>>): Trie<K>
  {
    Fork(Nil, Nil, list)
  }

  function OrDefault<K(!new)>(t: Trie<K>): Trie<K>
  {
    if t.Nil? then Leaf([]) else t
  }

  // ---------------------------------------------------------------- buckets

  ghost predicate Distinct<K(!new)>(list: seq<Cell<K>>)
  {
    forall i, j :: 0 <= i < j < |list| ==> list[i].key != list[j].key
  }

  // The ids filed under `key`, in list order.
  ghost function Matches<K(!new)>(list: seq<Cell<K>>, key: K): seq<U32>
  {
    if list == [] then []
    else
      var n := |list| - 1;
      Matches(list[..n], key) + if list[n].key == key then [list[n].id] else []
  }

  // The last position of `key`, or -1.
  ghost function LastMatch<K(!new)>(list: seq<Cell<K>>, key: K): (j: int)
    ensures -1 <= j < |list|
    ensures 0 <= j ==> list[j].key == key
    ensures forall i :: j < i < |list| ==> list[i].key != key
  {
    if list == [] then -1
    else if list[|list| - 1].key == key then |list| - 1
    else LastMatch(list[..|list| - 1], key)
  }

  function RemoveAt<K(!new)>(list: seq<Cell<K>>, j: nat): seq<Cell<K>>
    requires j < |list|
  {
    list[..j] + list[j + 1..]
  }

  ghost function Without<K(!new)>(list: seq<Cell<K>>, key: K): seq<Cell<K>>
  {
    var j := LastMatch(list, key);
    if j < 0 then list else RemoveAt(list, j)
  }

  // The first position strictly farther from the root than `c`, or the length.
  ghost function FirstFarther<K(!new)>(list: seq<Cell<K>>, c: Cell<K>): (j: nat)
    ensures j <= |list|
    ensures j < |list| ==> Less(c.dist, list[j].dist)
    ensures forall i :: 0 <= i < j ==> !Less(c.dist, list[i].dist)
  {
    if list == [] then 0
    else if Less(c.dist, list[0].dist) then 0
    else 1 + FirstFarther(list[1..], c)
  }

  // The cells of `list` whose bit `i` is `b`, in list order.
  ghost function Side<K(!new)>(list: seq<Cell<K>>, i: nat, b: bool): (r: seq<Cell<K>>)
    requires forall c :: c in list ==> i < |c.dist|
    ensures |r| <= |list|
  {
    if list == [] then []
    else
      var n := |list| - 1;
      Side(list[..n], i, b) + if list[n].dist[i] == b then [list[n]] else []
  }

  lemma {:induction false} SideMembers<K(!new)>(list: seq<Cell<K>>, i: nat, b: bool)
    requires forall c :: c in list ==> i < |c.dist|
    ensures forall c :: c in Side(list, i, b) <==> c in list && c.dist[i] == b
  {
    if list == [] {
    } else {
      var n := |list| - 1;
      SideMembers(list[..n], i, b);
      assert list == list[..n] + [list[n]];
    }
  }

  lemma {:induction false} SideDistinct<K(!new)>(list: seq<Cell<K>>, i: nat, b: bool)
    requires forall c :: c in list ==> i < |c.dist|
    requires Distinct(list)
    ensures Distinct(Side(list, i, b))
  {
    if list == [] {
    } else {
      var n := |list| - 1;
      SideDistinct(list[..n], i, b);
      SideMembers(list[..n], i, b);
      var r := Side(list[..n], i, b);
      forall j | 0 <= j < |r| ensures r[j].key != list[n].key {
        assert r[j] in list[..n];
      }
    }
  }

  // ---------------------------------------------------------------- insertion

  // What `Node::insert` may be called on: no internal node below MAX_LEVEL, no
  // overfull bucket, no key twice in a bucket, every distance longer than MAX_LEVEL.
  ghost predicate Bounded<K(!new)>(t: Trie<K>, index: nat)
    decreases t
  {
    match t
    case Nil => true
    case Fork(l, r, list) =>
      1 <= index <= MAX_LEVEL &&
      if t.IsLeaf() then BoundedList(list)
      else index < MAX_LEVEL && Bounded(l, index + 1) && Bounded(r, index + 1)
  }

  ghost predicate BoundedList<K(!new)>(list: seq<Cell<K>>)
  {
    |list| <= K_BUCKET && Distinct(list) && forall c :: c in list ==> MAX_LEVEL < |c.dist|
  }

  datatype Inserted<K> = Inserted(trie: Trie<K>, ok: bool, removed: seq<U32>)

  // A full bucket shared out between two fresh children.
  ghost function Split<K(!new)>(list: seq<Cell<K>>, index: nat): (t: Trie<K>)
    requires index < MAX_LEVEL && BoundedList(list)
  {
    Fork(Leaf(Side(list, index, false)), Leaf(Side(list, index, true)), [])
  }

  // What `Node::insert` makes of a node. A full bucket above MAX_LEVEL is shared out
  // at once here; that the source's loop of re-inserts does the same is proved with
  // the method.
  ghost function InsertInto<K(!new)>(t: Trie<K>, c: Cell<K>, index: nat): (r: Inserted<K>)
    requires t.Fork? && Bounded(t, index) && MAX_LEVEL < |c.dist|
    ensures r.trie.Fork?
    decreases MAX_LEVEL - index, t.IsLeaf()
  {
    if !t.IsLeaf() then
      if c.dist[index] then
        var r := InsertInto(OrDefault(t.right), c, index + 1);
        r.(trie := t.(right := r.trie))
      else
        var r := InsertInto(OrDefault(t.left), c, index + 1);
        r.(trie := t.(left := r.trie))
    else
      InsertLeaf(t, c, index)
  }

  ghost function InsertLeaf<K(!new)>(t: Trie<K>, c: Cell<K>, index: nat): (r: Inserted<K>)
    requires t.IsLeaf() && Bounded(t, index) && MAX_LEVEL < |c.dist|
    ensures r.trie.Fork?
    decreases MAX_LEVEL - index, true, 0
  {
    var removed := Matches(t.list, c.key);
    var list := Without(t.list, c.key);
    if |list| < K_BUCKET then
      Inserted(Leaf(list + [c]), true, removed)
    else if index >= MAX_LEVEL then
      var j := FirstFarther(list, c);
      if j < |list| then Inserted(Leaf(list[j := c]), true, removed + [list[j].id])
      else Inserted(Leaf(list), false, removed)
    else
      SplitBounded(list, index);
      InsertInto(Split(list, index), c, index)
  }

  lemma SplitBounded<K(!new)>(list: seq<Cell<K>>, index: nat)
    requires 1 <= index < MAX_LEVEL && BoundedList(list)
    ensures Bounded(Split(list, index), index)
  {
    SideDistinct(list, index, false);
    SideDistinct(list, index, true);
    SideMembers(list, index, false);
    SideMembers(list, index, true);
  }

  // ---------------------------------------------------------------- contents

  ghost function ListBindings<K(!new)>(list: seq<Cell<K>>): map<K, U32>
  {
    if list == [] then map[]
    else
      var n := |list| - 1;
      ListBindings(list[..n])[list[n].key := list[n].id]
  }

  // The finite map from keys to ids that a trie stands for.
  ghost function Bindings<K(!new)>(t: Trie<K>): map<K, U32>
  {
    match t
    case Nil => map[]
    case Fork(l, r, list) => ListBindings(list) + Bindings(l) + Bindings(r)
  }

  // Every binding of a bucket comes from one of its cells ...
  lemma {:induction false} CellOf<K(!new)>(list: seq<Cell<K>>, k: K) returns (c: Cell<K>)
    requires k in ListBindings(list)
    ensures c in list && c.key == k && c.id == ListBindings(list)[k]
  {
    var n := |list| - 1;
    if list[n].key == k {
      c := list[n];
    } else {
      c := CellOf(list[..n], k);
    }
  }

  // ... and every cell of a bucket gives one.
  lemma {:induction false} BindingOf<K(!new)>(list: seq<Cell<K>>, c: Cell<K>)
    requires Distinct(list) && c in list
    ensures c.key in ListBindings(list) && ListBindings(list)[c.key] == c.id
  {
    var n := |list| - 1;
    if c == list[n] {
    } else {
      var i :| 0 <= i < |list| && list[i] == c;
      assert list[..n][i] == c;
      BindingOf(list[..n], c);
    }
  }

  lemma LeafBindings<K(!new)>(list: seq<Cell<K>>)
    ensures Bindings(Leaf(list)) == ListBindings(list)
  {
    assert Bindings<K>(Nil) == map[];
  }

  lemma {:induction false} BucketSize<K(!new)>(list: seq<Cell<K>>)
    requires Distinct(list)
    ensures |ListBindings(list)| == |list|
  {
    if list == [] {
    } else {
      var n := |list| - 1;
      BucketSize(list[..n]);
      if list[n].key in ListBindings(list[..n]) {
        var c := CellOf(list[..n], list[n].key);
      }
      assert ListBindings(list).Keys == ListBindings(list[..n]).Keys + {list[n].key};
    }
  }

  // ---------------------------------------------------------------- well-formed tries

  ghost predicate WfList<K(!new)>(s: Space<K>, list: seq<Cell<K>>, p: Distance)
    requires s.Valid()
  {
    && |list| <= K_BUCKET
    && Distinct(list)
    && forall c :: c in list ==> c.dist == s.dist(c.key) && p <= c.dist
  }

  // `p` spells the path from the root to this node: a node at level |p| holds only
  // cells whose distance starts with `p`, and an internal node holds none itself.
  ghost predicate Wf<K(!new)>(s: Space<K>, t: Trie<K>, p: Distance)
    requires s.Valid()
    decreases t
  {
    match t
    case Nil => true
    case Fork(l, r, list) =>
      1 <= |p| <= MAX_LEVEL &&
      if t.IsLeaf() then WfList(s, list, p)
      else list == [] && |p| < MAX_LEVEL && Wf(s, l, p + [false]) && Wf(s, r, p + [true])
  }

  lemma {:induction false} WfBounded<K(!new)>(s: Space<K>, t: Trie<K>, p: Distance)
    requires s.Valid() && Wf(s, t, p)
    ensures Bounded(t, |p|)
    decreases t
  {
    if t.Nil? || t.IsLeaf() {
    } else {
      WfBounded(s, t.left, p + [false]);
      WfBounded(s, t.right, p + [true]);
    }
  }

  lemma {:induction false} KeysOnPath<K(!new)>(s: Space<K>, t: Trie<K>, p: Distance)
    requires s.Valid() && Wf(s, t, p)
    ensures forall k :: k in Bindings(t) ==> p <= s.dist(k)
    decreases t
  {
    if t.IsLeaf() {
      LeafBindings(t.list);
      forall k | k in Bindings(t) ensures p <= s.dist(k) {
        var c := CellOf(t.list, k);
      }
    } else if t.Fork? {
      KeysOnPath(s, t.left, p + [false]);
      KeysOnPath(s, t.right, p + [true]);
      forall k | k in Bindings(t) ensures p <= s.dist(k) {
        assert k in Bindings(t.left) ==> p + [false] <= s.dist(k);
        assert k in Bindings(t.right) ==> p + [true] <= s.dist(k);
      }
    }
  }

  // ---------------------------------------------------------------- what an add does to the map

  // The keys that an add of `key` competes with: those filed in the same bottom bucket.
  ghost function Mates<K(!new), V>(s: Space<K>, m: map<K, V>, key: K): set<K>
    requires s.Valid()
  {
    set k | k in m && s.dist(k)[..MAX_LEVEL] == s.dist(key)[..MAX_LEVEL]
  }

  // Those of them that would have to give way: strictly farther from the root.
  ghost function FartherMates<K(!new), V>(s: Space<K>, m: map<K, V>, key: K): set<K>
    requires s.Valid()
  {
    set k | k in Mates(s, m, key) && Less(s.dist(key), s.dist(k))
  }

  // What an add reports, and the map it leaves.
  datatype Outcome<K> = Outcome(ok: bool, removed: seq<U32>, contents: map<K, U32>)

  ghost function Evicting<K(!new)>(m: map<K, U32>, key: K, id: U32, e: K): Outcome<K>
    requires e in m
  {
    Outcome(true, [m[e]], (m - {e})[key := id])
  }

  // The possible effects of adding (key, id) to the map `m`, without any mention of a
  // trie: only the choice of the victim among the farther mates is left open.
  ghost function AddOutcomes<K(!new)>(s: Space<K>, m: map<K, U32>, key: K, id: U32): set<Outcome<K>>
    requires s.Valid()
  {
    if key in m then
      {Outcome(true, [m[key]], m[key := id])}
    else if |Mates(s, m, key)| < K_BUCKET then
      {Outcome(true, [], m[key := id])}
    else if FartherMates(s, m, key) != {} then
      set e | e in FartherMates(s, m, key) :: Evicting(m, key, id, e)
    else
      {Outcome(false, [], m)}
  }

  lemma ListAppend<K(!new)>(list: seq<Cell<K>>, c: Cell<K>)
    ensures ListBindings(list + [c]) == ListBindings(list)[c.key := c.id]
  {
    assert (list + [c])[..|list|] == list;
  }

  lemma {:induction false} MatchesOf<K(!new)>(list: seq<Cell<K>>, key: K)
    requires Distinct(list)
    ensures var j := LastMatch(list, key); Matches(list, key) == if j < 0 then [] else [list[j].id]
  {
    if list == [] {
    } else {
      var n := |list| - 1;
      MatchesOf(list[..n], key);
      assert forall i :: 0 <= i < n ==> list[..n][i].key == list[i].key;
    }
  }

  lemma RemoveAtDistinct<K(!new)>(list: seq<Cell<K>>, j: nat)
    requires Distinct(list) && j < |list|
    ensures Distinct(RemoveAt(list, j))
    ensures forall c :: c in RemoveAt(list, j) ==> c in list && c.key != list[j].key
  {
    var r := RemoveAt(list, j);
    assert forall i :: 0 <= i < j ==> r[i] == list[i];
    assert forall i :: j <= i < |r| ==> r[i] == list[i + 1];
  }

  lemma NewKey<K(!new)>(list: seq<Cell<K>>, part: seq<Cell<K>>)
    requires list != [] && Distinct(list)
    requires forall c :: c in part ==> c in list[..|list| - 1]
    ensures list[|list| - 1].key !in ListBindings(part)
  {
    if list[|list| - 1].key in ListBindings(part) {
      var d := CellOf(part, list[|list| - 1].key);
    }
  }

  lemma RemoveAtSnoc<K(!new)>(list: seq<Cell<K>>, j: nat)
    requires j + 1 < |list|
    ensures var n := |list| - 1; RemoveAt(list, j) == RemoveAt(list[..n], j) + [list[n]]
  {
  }

  lemma UpdateThenRemove<K(!new), V(!new)>(m: map<K, V>, k: K, v: V, x: K)
    requires k != x
    ensures m[k := v] - {x} == (m - {x})[k := v]
  {
  }

  // Taking a cell out of a bucket takes exactly its binding out.
  lemma {:induction false} ListRemove<K(!new)>(list: seq<Cell<K>>, j: nat)
    requires Distinct(list) && j < |list|
    ensures ListBindings(RemoveAt(list, j)) == ListBindings(list) - {list[j].key}
  {
    var n, x := |list| - 1, list[j].key;
    if j < n {
      ListRemove(list[..n], j);
      RemoveAtSnoc(list, j);
      ListAppend(RemoveAt(list[..n], j), list[n]);
      UpdateThenRemove(ListBindings(list[..n]), list[n].key, list[n].id, x);
    } else {
      WithoutLast(list);
      assert x !in ListBindings(list[..n]) by {
        NewKey(list, list[..n]);
      }
      PutThenRemove(ListBindings(list[..n]), x, list[n].id);
    }
  }

  lemma WithoutLast<K(!new)>(list: seq<Cell<K>>)
    requires list != []
    ensures RemoveAt(list, |list| - 1) == list[..|list| - 1]
  {
  }

  lemma PutThenRemove<K(!new), V(!new)>(m: map<K, V>, k: K, v: V)
    requires k !in m
    ensures m[k := v] - {k} == m
  {
  }

  // Overwriting one cell of a bucket swaps one binding for another.
  lemma ListReplace<K(!new)>(list: seq<Cell<K>>, j: nat, c: Cell<K>)
    requires Distinct(list) && j < |list|
    requires forall i :: 0 <= i < |list| ==> list[i].key != c.key
    ensures Distinct(list[j := c])
    ensures ListBindings(list[j := c]) == (ListBindings(list) - {list[j].key})[c.key := c.id]
  {
    ListRemove(list, j);
    ListRemove(list[j := c], j);
    assert RemoveAt(list[j := c], j) == RemoveAt(list, j);
    BindingOf(list[j := c], list[j := c][j]);
  }

  lemma MergeUpdate<K(!new), V(!new)>(a: map<K, V>, b: map<K, V>, k: K, v: V)
    ensures a + b[k := v] == (a + b)[k := v]
    ensures k !in b ==> a[k := v] + b == (a + b)[k := v]
  {
  }

  lemma SideSnoc<K(!new)>(list: seq<Cell<K>>, c: Cell<K>, i: nat)
    requires forall d :: d in list + [c] ==> i < |d.dist|
    ensures forall d :: d in list ==> d in list + [c]
    ensures Side(list + [c], i, c.dist[i]) == Side(list, i, c.dist[i]) + [c]
    ensures Side(list + [c], i, !c.dist[i]) == Side(list, i, !c.dist[i])
  {
    assert (list + [c])[..|list|] == list;
  }

  lemma SideBindingsSnoc<K(!new)>(list: seq<Cell<K>>, c: Cell<K>, i: nat)
    requires forall d :: d in list + [c] ==> i < |d.dist|
    requires forall d :: d in list ==> i < |d.dist|
    requires c.key !in ListBindings(Side(list, i, true))
    requires ListBindings(Side(list, i, false)) + ListBindings(Side(list, i, true)) == ListBindings(list)
    ensures ListBindings(Side(list + [c], i, false)) + ListBindings(Side(list + [c], i, true)) == ListBindings(list + [c])
  {
    SideSnoc(list, c, i);
    ListAppend(list, c);
    ListAppend(Side(list, i, c.dist[i]), c);
    MergeUpdate(ListBindings(Side(list, i, false)), ListBindings(Side(list, i, true)), c.key, c.id);
  }

  lemma LastNotOnSide<K(!new)>(list: seq<Cell<K>>, c: Cell<K>, i: nat, b: bool)
    requires Distinct(list + [c])
    requires forall d :: d in list ==> i < |d.dist|
    ensures c.key !in ListBindings(Side(list, i, b))
  {
    assert (list + [c])[..|list|] == list;
    SideMembers(list, i, b);
    NewKey(list + [c], Side(list, i, b));
  }

  lemma {:induction false} SideBindings<K(!new)>(list: seq<Cell<K>>, i: nat)
    requires Distinct(list)
    requires forall c :: c in list ==> i < |c.dist|
    ensures ListBindings(Side(list, i, false)) + ListBindings(Side(list, i, true)) == ListBindings(list)
  {
    if list == [] {
    } else {
      var pre, c := list[..|list| - 1], list[|list| - 1];
      assert list == pre + [c];
      SideBindings(pre, i);
      LastNotOnSide(pre, c, i, true);
      SideBindingsSnoc(pre, c, i);
    }
  }

  // Sharing a bucket out loses no binding and makes up none.
  lemma SplitBindings<K(!new)>(list: seq<Cell<K>>, index: nat)
    requires index < MAX_LEVEL && BoundedList(list)
    ensures Bindings(Split(list, index)) == ListBindings(list)
  {
    SideBindings(list, index);
    LeafBindings(Side(list, index, false));
    LeafBindings(Side(list, index, true));
    NodeBindings(Leaf(Side(list, index, false)), Leaf(Side(list, index, true)));
  }

  lemma SideWf<K(!new)>(s: Space<K>, list: seq<Cell<K>>, p: Distance, b: bool)
    requires s.Valid() && |p| < MAX_LEVEL && WfList(s, list, p)
    ensures WfList(s, Side(list, |p|, b), p + [b])
  {
    SideDistinct(list, |p|, b);
    SideMembers(list, |p|, b);
    forall c | c in Side(list, |p|, b) ensures c.dist == s.dist(c.key) && p + [b] <= c.dist {
      assert c in list;
      PathGrows(p, b, c.dist);
    }
  }

  lemma PathGrows(p: Distance, b: bool, d: Distance)
    requires p <= d && |p| < |d| && d[|p|] == b
    ensures p + [b] <= d
  {
  }

  lemma SplitWf<K(!new)>(s: Space<K>, list: seq<Cell<K>>, p: Distance)
    requires s.Valid() && 1 <= |p| < MAX_LEVEL && WfList(s, list, p)
    ensures Wf(s, Split(list, |p|), p)
  {
    SideWf(s, list, p, false);
    SideWf(s, list, p, true);
  }

  // An add to part of the map is an add to the whole, when nothing outside that part
  // competes with the new key.
  lemma OutcomeLifts<K(!new)>(s: Space<K>, a: map<K, U32>, b: map<K, U32>, key: K, id: U32, o: Outcome<K>)
    requires s.Valid() && a.Keys !! b.Keys
    requires forall k :: k in b ==> s.dist(k)[..MAX_LEVEL] != s.dist(key)[..MAX_LEVEL]
    requires o in AddOutcomes(s, a, key, id)
    ensures o.(contents := o.contents + b) in AddOutcomes(s, a + b, key, id)
    ensures o.contents + b == b + o.contents && a + b == b + a
  {
    assert key !in b;
    assert Mates(s, a + b, key) == Mates(s, a, key);
    assert FartherMates(s, a + b, key) == FartherMates(s, a, key);
    if key in a || |Mates(s, a, key)| < K_BUCKET {
      assert a[key := id] + b == (a + b)[key := id];
    } else if FartherMates(s, a, key) != {} {
      var e :| e in FartherMates(s, a, key) && o == Evicting(a, key, id, e);
      EvictingLifts(a, b, key, id, e);
    }
  }

  lemma EvictingLifts<K(!new)>(a: map<K, U32>, b: map<K, U32>, key: K, id: U32, e: K)
    requires a.Keys !! b.Keys && e in a && key !in b
    ensures var o := Evicting(a, key, id, e); o.(contents := o.contents + b) == Evicting(a + b, key, id, e)
  {
    assert (a - {e})[key := id] + b == ((a + b) - {e})[key := id];
  }

  // A key the bucket already holds: its cell moves to the end with the new id.
  lemma AddKnownKey<K(!new)>(s: Space<K>, list: seq<Cell<K>>, c: Cell<K>, p: Distance)
    requires s.Valid() && WfList(s, list, p) && c.dist == s.dist(c.key) && p <= c.dist
    requires 0 <= LastMatch(list, c.key)
    ensures WfList(s, Without(list, c.key) + [c], p)
    ensures Outcome(true, Matches(list, c.key), ListBindings(Without(list, c.key) + [c])) in AddOutcomes(s, ListBindings(list), c.key, c.id)
  {
    var m, j := ListBindings(list), LastMatch(list, c.key);
    MatchesOf(list, c.key);
    ListAppend(RemoveAt(list, j), c);
    RemoveAtDistinct(list, j);
    ListRemove(list, j);
    BindingOf(list, list[j]);
    assert (m - {c.key})[c.key := c.id] == m[c.key := c.id];
  }

  lemma AddNewKey<K(!new)>(s: Space<K>, list: seq<Cell<K>>, c: Cell<K>, p: Distance)
    requires s.Valid() && WfList(s, list, p) && c.dist == s.dist(c.key) && p <= c.dist
    requires LastMatch(list, c.key) < 0 && |list| < K_BUCKET
    ensures WfList(s, list + [c], p)
    ensures Outcome(true, [], ListBindings(list + [c])) in AddOutcomes(s, ListBindings(list), c.key, c.id)
  {
    AppendWf(s, list, c, p);
    ListAppend(list, c);
    RoomForKey(s, list, c.key);
  }

  lemma AppendWf<K(!new)>(s: Space<K>, list: seq<Cell<K>>, c: Cell<K>, p: Distance)
    requires s.Valid() && WfList(s, list, p) && c.dist == s.dist(c.key) && p <= c.dist
    requires LastMatch(list, c.key) < 0 && |list| < K_BUCKET
    ensures WfList(s, list + [c], p)
  {
  }

  lemma RoomForKey<K(!new)>(s: Space<K>, list: seq<Cell<K>>, key: K)
    requires s.Valid() && Distinct(list) && LastMatch(list, key) < 0 && |list| < K_BUCKET
    ensures key !in ListBindings(list) && |Mates(s, ListBindings(list), key)| < K_BUCKET
  {
    if key in ListBindings(list) {
      var d := CellOf(list, key);
    }
    BucketSize(list);
    SubsetSize(Mates(s, ListBindings(list), key), ListBindings(list).Keys);
  }

  lemma AddToBucketWithRoom<K(!new)>(s: Space<K>, list: seq<Cell<K>>, c: Cell<K>, p: Distance)
    requires s.Valid() && WfList(s, list, p) && c.dist == s.dist(c.key) && p <= c.dist
    requires |Without(list, c.key)| < K_BUCKET
    ensures WfList(s, Without(list, c.key) + [c], p)
    ensures Outcome(true, Matches(list, c.key), ListBindings(Without(list, c.key) + [c])) in AddOutcomes(s, ListBindings(list), c.key, c.id)
  {
    if 0 <= LastMatch(list, c.key) {
      AddKnownKey(s, list, c, p);
    } else {
      MatchesOf(list, c.key);
      AddNewKey(s, list, c, p);
    }
  }

  lemma SubsetSize<T>(a: set<T>, b: set<T>)
    requires a <= b
    ensures |a| <= |b|
  {
    assert b == a + (b - a);
  }

  lemma AddToFullBottomBucket<K(!new)>(s: Space<K>, list: seq<Cell<K>>, c: Cell<K>, p: Distance)
    requires s.Valid() && WfList(s, list, p) && c.dist == s.dist(c.key) && p <= c.dist
    requires |p| == MAX_LEVEL && |list| == K_BUCKET && LastMatch(list, c.key) < 0
    ensures var j := FirstFarther(list, c);
            if j < |list| then
              && WfList(s, list[j := c], p)
              && Outcome(true, [list[j].id], ListBindings(list[j := c])) in AddOutcomes(s, ListBindings(list), c.key, c.id)
            else
              Outcome(false, [], ListBindings(list)) in AddOutcomes(s, ListBindings(list), c.key, c.id)
  {
    var m, j := ListBindings(list), FirstFarther(list, c);
    BucketSize(list);
    if c.key in m {
      var d := CellOf(list, c.key);
    }
    forall k | k in m ensures k in Mates(s, m, c.key) {
      var d := CellOf(list, k);
      assert d.dist[..MAX_LEVEL] == p == c.dist[..MAX_LEVEL];
    }
    assert Mates(s, m, c.key) == m.Keys;
    if j < |list| {
      var e := list[j].key;
      ListReplace(list, j, c);
      BindingOf(list, list[j]);
      assert e in FartherMates(s, m, c.key);
      assert Outcome(true, [list[j].id], ListBindings(list[j := c])) == Evicting(m, c.key, c.id, e);
    } else {
      forall e | e in m ensures e !in FartherMates(s, m, c.key) {
        var d := CellOf(list, e);
        var i :| 0 <= i < |list| && list[i] == d;
      }
    }
  }

  lemma NodeBindings<K(!new)>(l: Trie<K>, r: Trie<K>)
    ensures Bindings(Fork(l, r, [])) == Bindings(l) + Bindings(r)
  {
    assert ListBindings<K>([]) == map[];
    EmptyPlus(Bindings(l), Bindings(r));
  }

  lemma EmptyPlus<K, V>(a: map<K, V>, b: map<K, V>)
    ensures map[] + a + b == a + b && a + b + map[] == a + b && map[] + (a + b) == a + b
  {
  }

  lemma DefaultWf<K(!new)>(s: Space<K>, t: Trie<K>, p: Distance)
    requires s.Valid() && 1 <= |p| <= MAX_LEVEL && Wf(s, t, p)
    ensures Wf(s, OrDefault(t), p) && Bindings(OrDefault(t)) == Bindings(t)
  {
    LeafBindings<K>([]);
  }

  // The two subtrees of a node never share a key, nor compete for a bottom bucket.
  lemma SidesApart<K(!new)>(s: Space<K>, l: Trie<K>, r: Trie<K>, p: Distance)
    requires s.Valid() && |p| < MAX_LEVEL && Wf(s, l, p + [false]) && Wf(s, r, p + [true])
    ensures forall k :: k in Bindings(l) ==> p + [false] <= s.dist(k) && !s.dist(k)[|p|]
    ensures forall k :: k in Bindings(r) ==> p + [true] <= s.dist(k) && s.dist(k)[|p|]
    ensures Bindings(l).Keys !! Bindings(r).Keys
  {
    KeysOnPath(s, l, p + [false]);
    KeysOnPath(s, r, p + [true]);
  }

  lemma OtherBitOtherBucket<K(!new)>(s: Space<K>, m: map<K, U32>, key: K, i: nat)
    requires s.Valid() && i < MAX_LEVEL
    requires forall k :: k in m ==> s.dist(k)[i] != s.dist(key)[i]
    ensures forall k :: k in m ==> s.dist(k)[..MAX_LEVEL] != s.dist(key)[..MAX_LEVEL]
  {
    forall k | k in m ensures s.dist(k)[..MAX_LEVEL] != s.dist(key)[..MAX_LEVEL] {
      assert s.dist(k)[..MAX_LEVEL][i] != s.dist(key)[..MAX_LEVEL][i];
    }
  }

  lemma StepOnRight<K(!new)>(s: Space<K>, l: Trie<K>, r: Trie<K>, r': Trie<K>, c: Cell<K>, p: Distance, ok: bool, removed: seq<U32>)
    requires s.Valid() && |p| < MAX_LEVEL && Wf(s, l, p + [false]) && Wf(s, r, p + [true])
    requires s.dist(c.key)[|p|]
    requires Outcome(ok, removed, Bindings(r')) in AddOutcomes(s, Bindings(r), c.key, c.id)
    ensures Outcome(ok, removed, Bindings(Fork(l, r', []))) in AddOutcomes(s, Bindings(Fork(l, r, [])), c.key, c.id)
  {
    SidesApart(s, l, r, p);
    OtherBitOtherBucket(s, Bindings(l), c.key, |p|);
    OutcomeLifts(s, Bindings(r), Bindings(l), c.key, c.id, Outcome(ok, removed, Bindings(r')));
    NodeBindings(l, r);
    NodeBindings(l, r');
  }

  lemma StepOnLeft<K(!new)>(s: Space<K>, l: Trie<K>, r: Trie<K>, l': Trie<K>, c: Cell<K>, p: Distance, ok: bool, removed: seq<U32>)
    requires s.Valid() && |p| < MAX_LEVEL && Wf(s, l, p + [false]) && Wf(s, r, p + [true])
    requires !s.dist(c.key)[|p|]
    requires Outcome(ok, removed, Bindings(l')) in AddOutcomes(s, Bindings(l), c.key, c.id)
    ensures Outcome(ok, removed, Bindings(Fork(l', r, []))) in AddOutcomes(s, Bindings(Fork(l, r, [])), c.key, c.id)
  {
    SidesApart(s, l, r, p);
    OtherBitOtherBucket(s, Bindings(r), c.key, |p|);
    OutcomeLifts(s, Bindings(l), Bindings(r), c.key, c.id, Outcome(ok, removed, Bindings(l')));
    NodeBindings(l, r);
    NodeBindings(l', r);
  }

  // `Node::insert` on a well-formed node is one step on the map it stands for, and it
  // leaves a well-formed node.
  lemma {:induction false} InsertRefines<K(!new)>(s: Space<K>, t: Trie<K>, c: Cell<K>, p: Distance)
    requires s.Valid() && t.Fork? && Wf(s, t, p) && c.dist == s.dist(c.key) && p <= c.dist
    ensures Bounded(t, |p|)
    ensures var r := InsertInto(t, c, |p|);
            && Wf(s, r.trie, p)
            && Outcome(r.ok, r.removed, Bindings(r.trie)) in AddOutcomes(s, Bindings(t), c.key, c.id)
    decreases MAX_LEVEL - |p|, t.IsLeaf()
  {
    WfBounded(s, t, p);
    if t.IsLeaf() {
      InsertLeafRefines(s, t, c, p);
    } else {
      InsertInternalRefines(s, t, c, p);
    }
  }

  lemma {:induction false} InsertInternalRefines<K(!new)>(s: Space<K>, t: Trie<K>, c: Cell<K>, p: Distance)
    requires s.Valid() && t.Fork? && !t.IsLeaf() && Wf(s, t, p) && c.dist == s.dist(c.key) && p <= c.dist
    ensures Bounded(t, |p|)
    ensures var r := InsertInto(t, c, |p|);
            && Wf(s, r.trie, p)
            && Outcome(r.ok, r.removed, Bindings(r.trie)) in AddOutcomes(s, Bindings(t), c.key, c.id)
    decreases MAX_LEVEL - |p|, false, 1
  {
    WfBounded(s, t, p);
    if c.dist[|p|] {
      InsertRightRefines(s, t, c, p);
    } else {
      InsertLeftRefines(s, t, c, p);
    }
  }

  lemma {:induction false} InsertRightRefines<K(!new)>(s: Space<K>, t: Trie<K>, c: Cell<K>, p: Distance)
    requires s.Valid() && t.Fork? && !t.IsLeaf() && Wf(s, t, p) && c.dist == s.dist(c.key) && p <= c.dist
    requires c.dist[|p|]
    ensures Bounded(t, |p|)
    ensures var r := InsertInto(t, c, |p|);
            && Wf(s, r.trie, p)
            && Outcome(r.ok, r.removed, Bindings(r.trie)) in AddOutcomes(s, Bindings(t), c.key, c.id)
    decreases MAX_LEVEL - |p|, false, 0
  {
    WfBounded(s, t, p);
    DefaultWf(s, t.right, p + [true]);
    InsertRefines(s, OrDefault(t.right), c, p + [true]);
    var r := InsertInto(OrDefault(t.right), c, |p| + 1);
    StepOnRight(s, t.left, t.right, r.trie, c, p, r.ok, r.removed);
  }

  lemma {:induction false} InsertLeftRefines<K(!new)>(s: Space<K>, t: Trie<K>, c: Cell<K>, p: Distance)
    requires s.Valid() && t.Fork? && !t.IsLeaf() && Wf(s, t, p) && c.dist == s.dist(c.key) && p <= c.dist
    requires !c.dist[|p|]
    ensures Bounded(t, |p|)
    ensures var r := InsertInto(t, c, |p|);
            && Wf(s, r.trie, p)
            && Outcome(r.ok, r.removed, Bindings(r.trie)) in AddOutcomes(s, Bindings(t), c.key, c.id)
    decreases MAX_LEVEL - |p|, false, 0
  {
    WfBounded(s, t, p);
    DefaultWf(s, t.left, p + [false]);
    InsertRefines(s, OrDefault(t.left), c, p + [false]);
    var r := InsertInto(OrDefault(t.left), c, |p| + 1);
    StepOnLeft(s, t.left, t.right, r.trie, c, p, r.ok, r.removed);
  }

  lemma {:induction false} InsertLeafRefines<K(!new)>(s: Space<K>, t: Trie<K>, c: Cell<K>, p: Distance)
    requires s.Valid() && t.IsLeaf() && Wf(s, t, p) && c.dist == s.dist(c.key) && p <= c.dist
    ensures Bounded(t, |p|)
    ensures var r := InsertInto(t, c, |p|);
            && Wf(s, r.trie, p)
            && Outcome(r.ok, r.removed, Bindings(r.trie)) in AddOutcomes(s, Bindings(t), c.key, c.id)
    decreases MAX_LEVEL - |p|, true, 0
  {
    WfBounded(s, t, p);
    LeafBindings(t.list);
    var rest := Without(t.list, c.key);
    if |rest| < K_BUCKET {
      AddToBucketWithRoom(s, t.list, c, p);
      LeafBindings(rest + [c]);
    } else if |p| >= MAX_LEVEL {
      AddToFullBottomBucket(s, t.list, c, p);
      MatchesOf(t.list, c.key);
      var j := FirstFarther(t.list, c);
      if j < |t.list| {
        LeafBindings(t.list[j := c]);
        assert InsertInto(t, c, |p|).removed == [] + [t.list[j].id] == [t.list[j].id];
      }
    } else {
      SplitWf(s, t.list, p);
      SplitBindings(t.list, |p|);
      InsertInternalRefines(s, Split(t.list, |p|), c, p);
    }
  }
}

/**
 The routing trie of src/kad.rs as the program keeps it: boxed nodes that are changed
 in place. `View` reads a node and everything below it as a value of `Trie.Trie`.
 */
module KadTree {
  import opened Bytes
  import opened Metric
  import opened Trie
  import opened Wrappers
  import opened Lookup
  import opened RootTrie

  class Node<K(==, !new)> {
    var left: Node?<K>
    var right: Node?<K>
    var list: seq<Cell<K>>
    ghost var Repr: set<object>

    // Boxes are owned: the two subtrees are disjoint and neither contains this node.
    ghost predicate Valid()
      reads this, Repr
      ensures Valid() ==> this in Repr
      decreases Repr
    {
      && this in Repr
      && (left != null ==> left in Repr && left.Repr <= Repr && this !in left.Repr && left.Valid())
      && (right != null ==> right in Repr && right.Repr <= Repr && this !in right.Repr && right.Valid())
      && (left != null && right != null ==> left.Repr !! right.Repr)
    }

    ghost function View(): (t: Trie<K>)
      requires Valid()
      reads this, Repr
      ensures t.Fork? && t.list == list
      ensures t.left.Nil? <==> left == null
      ensures t.right.Nil? <==> right == null
      decreases Repr
    {
      Fork(if left == null then Nil else left.View(), if right == null then Nil else right.View(), list)
    }

    constructor ()
      ensures Valid() && fresh(Repr) && Repr == {this}
      ensures View() == Leaf([])
    {
      left, right, list := null, null, [];
      Repr := {this};
    }

    // The ids filed under `key` in this bucket, and the bucket without the last of them.
    method TakeOut(key: K) returns (removed: seq<U32>)
      requires Valid()
      modifies this`list
      ensures Valid() && left == old(left) && right == old(right)
      ensures removed == Matches(old(list), key)
      ensures list == Without(old(list), key)
      ensures old(View()).IsLeaf() ==> View() == Leaf(list)
    {
      var deleted := -1;
      removed := [];
      for i := 0 to |list|
        invariant removed == Matches(list[..i], key)
        invariant deleted == LastMatch(list[..i], key)
      {
        assert list[..i + 1][..i] == list[..i];
        if list[i].key == key {
          deleted := i;
          removed := removed + [list[i].id];
        }
      }
      assert list[..|list|] == list;
      if deleted != -1 {
        list := RemoveAt(list, deleted);
      }
    }

    // The first cell strictly farther from the root gives way to `cell`.
    method ReplaceFarther(cell: Cell<K>) returns (victim: seq<U32>)
      requires Valid()
      modifies this`list
      ensures Valid() && left == old(left) && right == old(right)
      ensures var j := FirstFarther(old(list), cell);
              if j < |old(list)| then victim == [old(list)[j].id] && list == old(list)[j := cell]
              else victim == [] && list == old(list)
      ensures old(View()).IsLeaf() ==> View() == Leaf(list)
    {
      var i := 0;
      while i < |list|
        invariant 0 <= i <= |list| && list == old(list)
        invariant FirstFarther(list, cell) == i + FirstFarther(list[i..], cell)
      {
        if Less(cell.dist, list[i].dist) {
          victim := [list[i].id];
          list := list[i := cell];
          return;
        }
        assert list[i..][1..] == list[i + 1..];
        i := i + 1;
      }
      victim := [];
    }

    // `Node::insert`.
    method Insert(cell: Cell<K>, index: nat) returns (ok: bool, removed: seq<U32>)
      requires Valid() && Bounded(View(), index) && MAX_LEVEL < |cell.dist|
      modifies Repr
      ensures Valid() && fresh(Repr - old(Repr))
      ensures Inserted(View(), ok, removed) == InsertInto(old(View()), cell, index)
      decreases MAX_LEVEL - index, left == null && right == null
    {
      if right != null || left != null {
        if Get(cell.dist, index) {
          GrowRight();
          ok, removed := InsertRight(cell, index);
        } else {
          GrowLeft();
          ok, removed := InsertLeft(cell, index);
        }
      } else {
        ok, removed := InsertIntoBucket(cell, index);
      }
    }

    method InsertIntoBucket(cell: Cell<K>, index: nat) returns (ok: bool, removed: seq<U32>)
      requires Valid() && Bounded(View(), index) && MAX_LEVEL < |cell.dist|
      requires left == null && right == null
      modifies Repr
      ensures Valid() && fresh(Repr - old(Repr))
      ensures Inserted(View(), ok, removed) == InsertLeaf(old(View()), cell, index)
      decreases MAX_LEVEL - index, true, 3
    {
      removed := TakeOut(cell.key);
      if |list| < K_BUCKET {
        list := list + [cell];
        ok := true;
        assert View() == Leaf(list);
      } else if index >= MAX_LEVEL {
        var victim := ReplaceFarther(cell);
        ok, removed := victim != [], removed + victim;
      } else {
        assert list == old(list);
        ok, removed := SplitAndInsert(cell, index);
      }
    }

    method GrowRight()
      requires Valid()
      modifies this
      ensures Valid() && fresh(Repr - old(Repr)) && right != null
      ensures View() == Fork(old(View()).left, OrDefault(old(View()).right), list) && list == old(list)
    {
      if right == null {
        right := new Node();
        Repr := Repr + right.Repr;
      }
    }

    method InsertRight(cell: Cell<K>, index: nat) returns (ok: bool, removed: seq<U32>)
      requires Valid() && Bounded(View(), index) && MAX_LEVEL < |cell.dist|
      requires right != null && cell.dist[index]
      modifies Repr
      ensures Valid() && fresh(Repr - old(Repr))
      ensures Inserted(View(), ok, removed) == InsertInto(old(View()), cell, index)
      decreases MAX_LEVEL - index, false, 0
    {
      ok, removed := right.Insert(cell, index + 1);
      Repr := Repr + right.Repr;
    }

    method GrowLeft()
      requires Valid()
      modifies this
      ensures Valid() && fresh(Repr - old(Repr)) && left != null
      ensures View() == Fork(OrDefault(old(View()).left), old(View()).right, list) && list == old(list)
    {
      if left == null {
        left := new Node();
        Repr := Repr + left.Repr;
      }
    }

    method InsertLeft(cell: Cell<K>, index: nat) returns (ok: bool, removed: seq<U32>)
      requires Valid() && Bounded(View(), index) && MAX_LEVEL < |cell.dist|
      requires left != null && !cell.dist[index]
      modifies Repr
      ensures Valid() && fresh(Repr - old(Repr))
      ensures Inserted(View(), ok, removed) == InsertInto(old(View()), cell, index)
      decreases MAX_LEVEL - index, false, 0
    {
      ok, removed := left.Insert(cell, index + 1);
      Repr := Repr + left.Repr;
    }

    // A full bucket above MAX_LEVEL: two empty children, the cells are shared out
    // between them, and the new cell is inserted into what is now an internal node.
    method SplitAndInsert(cell: Cell<K>, index: nat) returns (ok: bool, removed: seq<U32>)
      requires Valid() && left == null && right == null
      requires 1 <= index < MAX_LEVEL && BoundedList(list) && MAX_LEVEL < |cell.dist|
      modifies Repr
      ensures Valid() && fresh(Repr - old(Repr))
      ensures Bounded(Split(old(list), index), index)
      ensures Inserted(View(), ok, removed) == InsertInto(Split(old(list), index), cell, index)
      decreases MAX_LEVEL - index, true, 2
    {
      MakeChildren();
      assert View() == Shared([], list, index);
      ShareOut(index);
      SplitBounded(old(list), index);
      ok, removed := Insert(cell, index);
    }

    method MakeChildren()
      requires Valid() && left == null && right == null
      modifies this
      ensures Valid() && fresh(Repr - old(Repr))
      ensures View() == Fork(Leaf([]), Leaf([]), list) && list == old(list)
    {
      right := new Node();
      left := new Node();
      Repr := Repr + right.Repr + left.Repr;
    }

    // Every cell is taken off this node's list and inserted again into this very node;
    // the result of each of these inserts is dropped.
    method ShareOut(index: nat)
      requires Valid() && 1 <= index < MAX_LEVEL && BoundedList(list)
      requires View() == Shared([], list, index)
      modifies Repr
      ensures Valid() && fresh(Repr - old(Repr))
      ensures View() == Split(old(list), index)
      decreases MAX_LEVEL - index, true, 1
    {
      ghost var done, whole := [], list;
      while list != []
        invariant Valid() && fresh(Repr - old(Repr))
        invariant done + list == whole
        invariant forall c :: c in done ==> MAX_LEVEL < |c.dist|
        invariant View() == Shared(done, list, index)
        decreases |list|
      {
        ghost var first := list[0];
        ShiftFirst(done, list);
        var kept, lost := ReinsertFirst(index, done, whole);
        done := done + [first];
      }
      assert done == whole;
    }

    // What is dropped is never a refusal and never the report of a removal.
    method ReinsertFirst(index: nat, ghost done: seq<Cell<K>>, ghost whole: seq<Cell<K>>) returns (kept: bool, lost: seq<U32>)
      requires Valid() && 1 <= index < MAX_LEVEL && list != [] && done + list == whole && BoundedList(whole)
      requires forall c :: c in done ==> MAX_LEVEL < |c.dist|
      requires View() == Shared(done, list, index)
      modifies Repr
      ensures Valid() && fresh(Repr - old(Repr))
      ensures kept && lost == []
      ensures list == old(list)[1..]
      ensures forall c :: c in done + [old(list)[0]] ==> MAX_LEVEL < |c.dist|
      ensures View() == Shared(done + [old(list)[0]], list, index)
      decreases MAX_LEVEL - index, true, 0
    {
      var newCell := list[0];
      ShiftFirst(done, list);
      ReinsertKeepsAll(done, newCell, list[1..], index);
      list := list[1..];
      assert View() == Shared(done, list, index);
      kept, lost := Insert(newCell, index);
    }

    // The scan at the head of `Node::search`: stops at `key`, and otherwise remembers
    // the closest cell that is closer than the all-ones distance.
    method Scan(key: K, distance: Distance) returns (exact: int, closest: int)
      requires forall c :: c in list ==> |c.dist| == |distance|
      ensures IsScan(list, key, distance, exact, closest)
    {
      exact, closest := -1, -1;
      var closestDistance := Max(|distance|);
      for i := 0 to |list|
        invariant exact == -1
        invariant IsScan(list[..i], key, distance, exact, closest)
        invariant closestDistance == if closest < 0 then Max(|distance|) else Xor(distance, list[closest].dist)
      {
        assert list[..i + 1] == list[..i] + [list[i]];
        if list[i].key == key {
          exact := i;
          return;
        }
        var dis := ComputeXor(distance, list[i].dist, |distance|);
        ScanStep(list[..i], list[i], key, distance, closest);
        if Less(dis, closestDistance) {
          closestDistance, closest := dis, i;
        }
      }
      assert list[..|list|] == list;
    }

    // `Node::search`.
    method Search(key: K, distance: Distance, index: nat, ghost s: Space<K>, ghost p: Distance)
      returns (r: Option<Hit<K>>)
      requires Valid() && s.Valid() && Wf(s, View(), p) && index == |p| && distance == s.dist(key)
      ensures IsSearch(s, View(), key, index, r)
      decreases Repr
    {
      var exact, closest := Scan(key, distance);
      if exact >= 0 {
        r := Some(Hit(list[exact].key, list[exact].id, true));
        ExactHit(s, View(), p, key, exact);
        return;
      }
      if right != null || left != null {
        r := SearchBelow(key, distance, index, s, p);
        SearchLifts(s, View(), p, key, r);
      } else {
        NoExactHit(s, View(), p, key, closest);
        r := None;
      }
      if r.None? && closest >= 0 {
        r := Some(Hit(list[closest].key, list[closest].id, false));
      }
    }

    // The child on the target's side, if there is one.
    method SearchBelow(key: K, distance: Distance, index: nat, ghost s: Space<K>, ghost p: Distance)
      returns (r: Option<Hit<K>>)
      requires Valid() && s.Valid() && Wf(s, View(), p) && index == |p| && distance == s.dist(key)
      requires right != null || left != null
      ensures IsSearch(s, if distance[index] then View().right else View().left, key, index + 1, r)
      decreases Repr, 0
    {
      NothingToFind(s, key, index + 1);
      r := None;
      if Get(distance, index) {
        if right != null {
          r := right.Search(key, distance, index + 1, s, p + [true]);
        }
      } else {
        if left != null {
          r := left.Search(key, distance, index + 1, s, p + [false]);
        }
      }
    }

    // `Node::remove`: emptied nodes stay where they are.
    method Remove(key: K, distance: Distance, index: nat, ghost s: Space<K>, ghost p: Distance)
      returns (r: Option<U32>)
      requires Valid() && s.Valid() && Wf(s, View(), p) && index == |p| && distance == s.dist(key)
      modifies Repr
      ensures Valid() && Repr == old(Repr)
      ensures IsRemoval(s, old(View()), p, key, View(), r)
      decreases Repr
    {
      var deleted := FindLast(key);
      if deleted != -1 {
        RemoveFromBucket(s, list, p, key);
        assert View() == Leaf(list);
        r := Some(list[deleted].id);
        list := RemoveAt(list, deleted);
        return;
      }
      if Get(distance, index) {
        if right != null {
          r := RemoveRight(key, distance, index, s, p);
          return;
        }
      } else {
        if left != null {
          r := RemoveLeft(key, distance, index, s, p);
          return;
        }
      }
      r := None;
      NotOnThisSide(s, View(), p, key);
    }

    method FindLast(key: K) returns (deleted: int)
      ensures deleted == LastMatch(list, key)
    {
      deleted := -1;
      for i := 0 to |list|
        invariant deleted == LastMatch(list[..i], key)
      {
        assert list[..i + 1][..i] == list[..i];
        if list[i].key == key {
          deleted := i;
        }
      }
      assert list[..|list|] == list;
    }

    method RemoveRight(key: K, distance: Distance, index: nat, ghost s: Space<K>, ghost p: Distance)
      returns (r: Option<U32>)
      requires Valid() && s.Valid() && Wf(s, View(), p) && index == |p| && distance == s.dist(key)
      requires right != null && distance[index]
      modifies Repr
      ensures Valid() && Repr == old(Repr)
      ensures IsRemoval(s, old(View()), p, key, View(), r)
      decreases Repr, 0
    {
      ghost var t := View();
      r := right.Remove(key, distance, index + 1, s, p + [true]);
      assert View() == Fork(t.left, View().right, []);
      RemovedBelow(s, t, View().right, p, key, r);
    }

    method RemoveLeft(key: K, distance: Distance, index: nat, ghost s: Space<K>, ghost p: Distance)
      returns (r: Option<U32>)
      requires Valid() && s.Valid() && Wf(s, View(), p) && index == |p| && distance == s.dist(key)
      requires left != null && !distance[index]
      modifies Repr
      ensures Valid() && Repr == old(Repr)
      ensures IsRemoval(s, old(View()), p, key, View(), r)
      decreases Repr, 0
    {
      ghost var t := View();
      r := left.Remove(key, distance, index + 1, s, p + [false]);
      assert View() == Fork(View().left, t.right, []);
      RemovedBelow(s, t, View().left, p, key, r);
    }

    // `Node::keys`: appends this bucket's keys, then those of the left and of the right.
    method Keys(vec: seq<K>) returns (out: seq<K>)
      requires Valid()
      ensures out == KeysInto(View(), vec)
      decreases Repr
    {
      out := BucketKeys(vec);
      if left != null {
        out := left.Keys(out);
      }
      if right != null {
        out := right.Keys(out);
      }
    }

    method BucketKeys(vec: seq<K>) returns (out: seq<K>)
      ensures out == vec + ListKeys(list)
    {
      out := vec;
      for i := 0 to |list|
        invariant out == vec + ListKeys(list[..i])
      {
        assert list[..i + 1][..i] == list[..i];
        out := out + [list[i].key];
      }
      assert list[..|list|] == list;
    }

    // `Node::is_empty`.
    method IsEmpty() returns (r: bool)
      requires Valid()
      ensures r <==> KeysOf(View()) == []
      decreases Repr
    {
      if list != [] {
        return false;
      }
      if left != null {
        var e := left.IsEmpty();
        if !e {
          return false;
        }
      }
      if right != null {
        var e := right.IsEmpty();
        if !e {
          return false;
        }
      }
      r := true;
    }
  }

  // A node whose two children hold the cells handed out so far.
  ghost function Shared<K(!new)>(done: seq<Cell<K>>, rest: seq<Cell<K>>, index: nat): Trie<K>
    requires index < MAX_LEVEL && forall c :: c in done ==> MAX_LEVEL < |c.dist|
  {
    Fork(Leaf(Side(done, index, false)), Leaf(Side(done, index, true)), rest)
  }

  lemma ShiftFirst<T>(done: seq<T>, list: seq<T>)
    requires list != []
    ensures (done + [list[0]]) + list[1..] == done + list
  {
  }

  lemma BucketTakesNewKey<K(!new)>(list: seq<Cell<K>>, c: Cell<K>, index: nat)
    requires 1 <= index <= MAX_LEVEL && BoundedList(list) && |list| < K_BUCKET && MAX_LEVEL < |c.dist|
    requires forall d :: d in list ==> d.key != c.key
    ensures InsertInto(Leaf(list), c, index) == Inserted(Leaf(list + [c]), true, [])
  {
    MatchesOf(list, c.key);
  }

  lemma PartsBounded<K(!new)>(done: seq<Cell<K>>, c: Cell<K>, rest: seq<Cell<K>>)
    requires BoundedList(done + [c] + rest)
    ensures BoundedList(done) && |done| < K_BUCKET && MAX_LEVEL < |c.dist|
    ensures forall d :: d in done ==> d.key != c.key
  {
    var whole := done + [c] + rest;
    assert forall i :: 0 <= i < |done| ==> done[i] == whole[i];
    assert c == whole[|done|];
  }

  // Splitting a bucket loses nothing: the insert whose result the source throws away
  // returns (true, []), moves the cell to the child its bit names, and leaves the rest.
  lemma ReinsertKeepsAll<K(!new)>(done: seq<Cell<K>>, c: Cell<K>, rest: seq<Cell<K>>, index: nat)
    requires 1 <= index < MAX_LEVEL && BoundedList(done + [c] + rest)
    ensures forall d :: d in done + [c] ==> MAX_LEVEL < |d.dist|
    ensures Bounded(Shared(done, rest, index), index)
    ensures InsertInto(Shared(done, rest, index), c, index) == Inserted(Shared(done + [c], rest, index), true, [])
  {
    PartsBounded(done, c, rest);
    assert Bounded(Shared(done, rest, index), index) by {
      SplitBounded(done, index);
    }
    var b := c.dist[index];
    var near := Side(done, index, b);
    assert InsertInto(Leaf(near), c, index + 1) == Inserted(Leaf(near + [c]), true, []) by {
      SideMembers(done, index, b);
      SideDistinct(done, index, b);
      BucketTakesNewKey(near, c, index + 1);
    }
    SideSnoc(done, c, index);
  }

  // `KadTree`: two nodes, one on each side of bit 0, at level 1.
  class KadTree<K(==, !new)> {
    const rootKey: K
    const bits: K -> Distance
    const len: nat
    ghost const space: Space<K>
    var left: Node?<K>
    var right: Node?<K>
    ghost var Contents: map<K, U32>  // the finite map this tree stands for
    ghost var Repr: set<object>

    // The boxes: who owns what.
    ghost predicate Owned()
      reads `left, `right, `Repr, Repr - {this}
      ensures Owned() ==> this in Repr
    {
      && this in Repr
      && (left != null ==> left in Repr && left.Repr <= Repr && this !in left.Repr && left.Valid())
      && (right != null ==> right in Repr && right.Repr <= Repr && this !in right.Repr && right.Valid())
      && (left != null && right != null ==> left.Repr !! right.Repr)
    }

    ghost predicate Valid()
      reads this, Repr
      ensures Valid() ==> this in Repr
    {
      && Owned()
      && IsSpace(rootKey, bits, len, space)  // distances are XORs with the root key
      && WfRoot(space, Left(), Right())
      && Contents == Merged(Left(), Right())
    }

    ghost function Left(): Trie<K>
      requires left != null ==> left.Valid()
      reads `left, if left == null then {} else left.Repr + {left}
    {
      if left == null then Nil else left.View()
    }

    ghost function Right(): Trie<K>
      requires right != null ==> right.Valid()
      reads `right, if right == null then {} else right.Repr + {right}
    {
      if right == null then Nil else right.View()
    }

    constructor (key: K, bits: K -> Distance, len: nat)
      requires MAX_LEVEL < len && forall k :: |bits(k)| == len
      ensures Valid() && fresh(Repr)
      ensures Contents == map[] && Repr == {this}
      ensures rootKey == key && this.bits == bits && this.len == len
    {
      rootKey, this.bits, this.len := key, bits, len;
      space := SpaceOf(key, bits, len);
      left, right := null, null;
      Contents := map[];
      Repr := {this};
    }

    // What `Runs` asks of a table to start from.
    lemma ContentsBalanced()
      requires Valid()
      ensures Balanced(space, Contents)
    {
      RootBalanced(space, Left(), Right());
    }

    method Add(key: K, value: U32) returns (ok: bool, removed: seq<U32>)
      requires Valid()
      modifies Repr
      ensures Valid() && fresh(Repr - old(Repr))
      ensures Outcome(ok, removed, Contents) in AddOutcomes(space, old(Contents), key, value)
    {
      var distance := ComputeXor(bits(rootKey), bits(key), len);
      var cell := Cell(key, value, distance);
      if Get(distance, 0) {
        ok, removed := AddRight(cell);
      } else {
        ok, removed := AddLeft(cell);
      }
    }

    method AddRight(cell: Cell<K>) returns (ok: bool, removed: seq<U32>)
      requires Valid() && cell.dist == space.dist(cell.key) && cell.dist[0]
      modifies Repr
      ensures Valid() && fresh(Repr - old(Repr))
      ensures Outcome(ok, removed, Contents) in AddOutcomes(space, old(Contents), cell.key, cell.id)
    {
      RootAddRight(space, Left(), Right(), cell);
      ghost var x := InsertInto(OrDefault(Right()), cell, 1);
      ok, removed := InsertRight(cell, Merged(Left(), x.trie));
    }

    method InsertRight(cell: Cell<K>, ghost contents: map<K, U32>) returns (ok: bool, removed: seq<U32>)
      requires Owned() && Bounded(OrDefault(Right()), 1) && MAX_LEVEL < |cell.dist|
      modifies Repr
      ensures Owned() && fresh(Repr - old(Repr)) && Contents == contents
      ensures Left() == old(Left())
      ensures Inserted(Right(), ok, removed) == InsertInto(OrDefault(old(Right())), cell, 1)
    {
      GrowRight(contents);
      ok, removed := right.Insert(cell, 1);
      Repr := Repr + right.Repr;
    }

    method GrowRight(ghost contents: map<K, U32>)
      requires Owned()
      modifies this
      ensures Owned() && fresh(Repr - old(Repr)) && Contents == contents && right != null
      ensures Right() == OrDefault(old(Right())) && Left() == old(Left())
    {
      if right == null {
        right := new Node();
        Repr := Repr + right.Repr;
      }
      Contents := contents;
    }

    method AddLeft(cell: Cell<K>) returns (ok: bool, removed: seq<U32>)
      requires Valid() && cell.dist == space.dist(cell.key) && !cell.dist[0]
      modifies Repr
      ensures Valid() && fresh(Repr - old(Repr))
      ensures Outcome(ok, removed, Contents) in AddOutcomes(space, old(Contents), cell.key, cell.id)
    {
      RootAddLeft(space, Left(), Right(), cell);
      ghost var x := InsertInto(OrDefault(Left()), cell, 1);
      ok, removed := InsertLeft(cell, Merged(x.trie, Right()));
    }

    method InsertLeft(cell: Cell<K>, ghost contents: map<K, U32>) returns (ok: bool, removed: seq<U32>)
      requires Owned() && Bounded(OrDefault(Left()), 1) && MAX_LEVEL < |cell.dist|
      modifies Repr
      ensures Owned() && fresh(Repr - old(Repr)) && Contents == contents
      ensures Right() == old(Right())
      ensures Inserted(Left(), ok, removed) == InsertInto(OrDefault(old(Left())), cell, 1)
    {
      GrowLeft(contents);
      ok, removed := left.Insert(cell, 1);
      Repr := Repr + left.Repr;
    }

    method GrowLeft(ghost contents: map<K, U32>)
      requires Owned()
      modifies this
      ensures Owned() && fresh(Repr - old(Repr)) && Contents == contents && left != null
      ensures Left() == OrDefault(old(Left())) && Right() == old(Right())
    {
      if left == null {
        left := new Node();
        Repr := Repr + left.Repr;
      }
      Contents := contents;
    }

    // The one path that a search of `key` reads leads to nothing.
    ghost predicate Misses(key: K)
      requires Valid()
      reads this, Repr
    {
      RootTrie.Misses(space, Left(), Right(), key)
    }

    // `KadTree::search`, with the fall back to the other side when the target's own
    // side has never been used.
    method Search(key: K) returns (r: Option<Hit<K>>)
      requires Valid()
      ensures Answers(space, Contents, Misses(key), key, r)
    {
      var distance := ComputeXor(bits(rootKey), bits(key), len);
      r := SearchPath(key, distance, space);
      RootSearch(space, Left(), Right(), key, r);
    }

    method SearchPath(key: K, distance: Distance, ghost s: Space<K>) returns (r: Option<Hit<K>>)
      requires Owned() && s.Valid() && distance == s.dist(key) && WfRoot(s, Left(), Right())
      ensures IsSearch(s, SearchedSide(Left(), Right(), distance), key, 1, r)
    {
      if Get(distance, 0) {
        if right == null {
          r := SearchLeft(key, distance, s);
        } else {
          r := SearchRight(key, distance, s);
        }
      } else {
        if left == null {
          r := SearchRight(key, distance, s);
        } else {
          r := SearchLeft(key, distance, s);
        }
      }
    }

    method SearchLeft(key: K, distance: Distance, ghost s: Space<K>) returns (r: Option<Hit<K>>)
      requires Owned() && s.Valid() && distance == s.dist(key) && Wf(s, Left(), [false])
      ensures IsSearch(s, Left(), key, 1, r)
    {
      if left == null {
        NothingToFind(s, key, 1);
        r := None;
      } else {
        r := left.Search(key, distance, 1, s, [false]);
      }
    }

    method SearchRight(key: K, distance: Distance, ghost s: Space<K>) returns (r: Option<Hit<K>>)
      requires Owned() && s.Valid() && distance == s.dist(key) && Wf(s, Right(), [true])
      ensures IsSearch(s, Right(), key, 1, r)
    {
      if right == null {
        NothingToFind(s, key, 1);
        r := None;
      } else {
        r := right.Search(key, distance, 1, s, [true]);
      }
    }

    // `KadTree::next_closest`.
    method NextClosest(key: K, prev: K) returns (id: Option<U32>, ghost hit: Option<Hit<K>>)
      requires Valid()
      ensures Answers(space, Contents, Misses(key), key, hit)
      ensures id == if hit.Some? && hit.value.key != prev then Some(hit.value.id) else None
    {
      var r := Search(key);
      id := if r.Some? then if r.value.key == prev then None else Some(r.value.id) else None;
      hit := r;
    }

    method Contains(key: K) returns (b: bool)
      requires Valid()
      ensures b <==> key in Contents
    {
      var r := Search(key);
      b := r.Some? && r.value.exact;
    }

    method Remove(key: K) returns (r: Option<U32>)
      requires Valid()
      modifies Repr
      ensures Valid() && fresh(Repr - old(Repr))
      ensures Contents == old(Contents) - {key}
      ensures r == Bound(old(Contents), key)
    {
      var distance := ComputeXor(bits(rootKey), bits(key), len);
      ghost var oldLeft, oldRight := Left(), Right();
      r := RemoveOnPath(key, distance, space, Contents - {key});
      RootRemoved(space, oldLeft, oldRight, Left(), Right(), key, r);
    }

    method RemoveOnPath(key: K, distance: Distance, ghost s: Space<K>, ghost contents: map<K, U32>) returns (r: Option<U32>)
      requires Owned() && s.Valid() && distance == s.dist(key) && WfRoot(s, Left(), Right())
      modifies Repr
      ensures Owned() && Repr == old(Repr) && Contents == contents
      ensures if distance[0] then Left() == old(Left()) && IsRemoval(s, old(Right()), [true], key, Right(), r)
              else Right() == old(Right()) && IsRemoval(s, old(Left()), [false], key, Left(), r)
    {
      if Get(distance, 0) {
        r := RemoveRight(key, distance, s, contents);
      } else {
        r := RemoveLeft(key, distance, s, contents);
      }
    }

    method RemoveRight(key: K, distance: Distance, ghost s: Space<K>, ghost contents: map<K, U32>) returns (r: Option<U32>)
      requires Owned() && s.Valid() && distance == s.dist(key) && Wf(s, Right(), [true])
      modifies Repr
      ensures Owned() && Repr == old(Repr) && Contents == contents && Left() == old(Left())
      ensures IsRemoval(s, old(Right()), [true], key, Right(), r)
    {
      Contents := contents;
      if right != null {
        r := right.Remove(key, distance, 1, s, [true]);
      } else {
        RemoveFromNil(s, [true], key);
        r := None;
      }
    }

    method RemoveLeft(key: K, distance: Distance, ghost s: Space<K>, ghost contents: map<K, U32>) returns (r: Option<U32>)
      requires Owned() && s.Valid() && distance == s.dist(key) && Wf(s, Left(), [false])
      modifies Repr
      ensures Owned() && Repr == old(Repr) && Contents == contents && Right() == old(Right())
      ensures IsRemoval(s, old(Left()), [false], key, Left(), r)
    {
      Contents := contents;
      if left != null {
        r := left.Remove(key, distance, 1, s, [false]);
      } else {
        RemoveFromNil(s, [false], key);
        r := None;
      }
    }

    method Keys() returns (vec: seq<K>)
      requires Valid()
      ensures NoRepeats(vec)
      ensures forall k :: k in vec <==> k in Contents
    {
      vec := [];
      if left != null {
        vec := left.Keys(vec);
      }
      if right != null {
        vec := right.Keys(vec);
      }
      RootKeys(space, Left(), Right());
      assert vec == KeysInto(Right(), KeysInto(Left(), []));
    }

    method IsEmpty() returns (b: bool)
      requires Valid()
      ensures b <==> Contents == map[]
    {
      RootEmpty(space, Left(), Right());
      b := NothingListed();
    }

    method NothingListed() returns (b: bool)
      requires Owned()
      ensures b <==> KeysOf(Left()) == [] && KeysOf(Right()) == []
    {
      if left != null {
        var e := left.IsEmpty();
        if !e {
          return false;
        }
      }
      if right != null {
        var e := right.IsEmpty();
        if !e {
          return false;
        }
      }
      b := true;
    }
  }
}

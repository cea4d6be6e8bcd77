/**
 The XOR metric of the routing table (src/kad.rs): distances are bit strings,
 compared lexicographically from bit 0, which is how `BitVec` orders.
 */
module Metric {

  type Distance = seq<bool>

  // `Distance::get` answers false from this index on, whatever the bits are.
  const GET_LIMIT: nat := 160

  function Get(d: Distance, i: nat): bool
    requires i < GET_LIMIT ==> i < |d|
  {
    if i >= GET_LIMIT then false else d[i]
  }

  function Xor(a: Distance, b: Distance): Distance
    requires |a| == |b|
  {
    seq(|a|, i requires 0 <= i < |a| => a[i] != b[i])
  }

  // `Distance::xor`, bit by bit into a vector of the given length.
  method ComputeXor(a: Distance, b: Distance, len: nat) returns (r: Distance)
    requires |a| == |b| == len
    ensures r == Xor(a, b)
  {
    r := seq(len, _ => false);
    for i := 0 to len
      invariant |r| == len
      invariant forall j :: 0 <= j < i ==> r[j] == (a[j] != b[j])
    {
      if a[i] != b[i] {
        r := r[i := true];
      } else {
        r := r[i := false];
      }
    }
  }

  // `a` and `b` agree before bit `j`, where `a` has 0 and `b` has 1.
  predicate SplitsAt(a: Distance, b: Distance, j: nat)
  {
    j < |a| && j < |b| && a[..j] == b[..j] && !a[j] && b[j]
  }

  predicate Less(a: Distance, b: Distance)
  {
    exists j: nat :: j < |a| && SplitsAt(a, b, j)
  }

  lemma LessAsymmetric(a: Distance, b: Distance)
    requires Less(a, b)
    ensures !Less(b, a) && a != b
  {
    var j: nat :| j < |a| && SplitsAt(a, b, j);
    forall k: nat | k < |b|
      ensures !SplitsAt(b, a, k)
    {
      if k < |a| {
        assert j < k ==> a[..k][j] != b[..k][j];
        assert k < j ==> a[..j][k] == b[..j][k];
      }
    }
  }

  lemma LessTransitive(a: Distance, b: Distance, c: Distance)
    requires Less(a, b) && Less(b, c)
    ensures Less(a, c)
  {
    var j: nat :| j < |a| && SplitsAt(a, b, j);
    var k: nat :| k < |b| && SplitsAt(b, c, k);
    var m := if j < k then j else k;
    assert a[..m] == c[..m] by {
      assert a[..m] == a[..j][..m] == b[..j][..m] == b[..m];
      assert c[..m] == c[..k][..m] == b[..k][..m] == b[..m];
    }
    if j < k {
      assert b[..k][j] == c[..k][j];
    } else if k < j {
      assert a[..j][k] == b[..j][k];
    }
    assert SplitsAt(a, c, m);
  }

  lemma LessIrreflexive(a: Distance)
    ensures !Less(a, a)
  {
  }

  // Distances of one length are totally ordered.
  lemma {:induction false} LessTotal(a: Distance, b: Distance, j: nat)
    requires |a| == |b| && j <= |a| && a[..j] == b[..j]
    ensures a == b || Less(a, b) || Less(b, a)
    decreases |a| - j
  {
    if j == |a| {
      assert a == a[..j] == b[..j] == b;
    } else if a[j] == b[j] {
      assert a[..j + 1] == a[..j] + [a[j]] == b[..j + 1];
      LessTotal(a, b, j + 1);
    } else {
      assert SplitsAt(a, b, j) || SplitsAt(b, a, j);
    }
  }

  // Comparing two distances from a common root compares the two keys themselves.
  lemma XorCancels(root: Distance, a: Distance, b: Distance)
    requires |root| == |a| == |b|
    ensures Xor(Xor(root, a), Xor(root, b)) == Xor(a, b)
  {
  }

  lemma XorInjective(root: Distance, a: Distance, b: Distance)
    requires |root| == |a| == |b|
    ensures Xor(root, a) == Xor(root, b) <==> a == b
  {
    if Xor(root, a) == Xor(root, b) {
      forall i | 0 <= i < |a| ensures a[i] == b[i] {
        assert Xor(root, a)[i] == Xor(root, b)[i];
      }
    }
  }

  // The geometric heart of the search: if `a` stays with `target` one bit longer
  // than `b` does, then `a` is strictly closer to `target`.
  lemma LongerSharedPathIsCloser(target: Distance, a: Distance, b: Distance, j: nat)
    requires |target| == |a| == |b| && j < |a|
    requires a[..j] == b[..j] && a[j] == target[j] != b[j]
    ensures Less(Xor(target, a), Xor(target, b))
  {
    var x, y := Xor(target, a), Xor(target, b);
    forall i | 0 <= i < j ensures x[i] == y[i] {
      assert a[..j][i] == b[..j][i];
    }
    assert SplitsAt(x, y, j);
  }

  function Pow2(n: nat): (r: nat)
    ensures 1 <= r
  {
    if n == 0 then 1 else 2 * Pow2(n - 1)
  }

  lemma PowersOfTwo()
    ensures Pow2(7) == 128 && Pow2(8) == 256
  {
    assert Pow2(4) == 16;
    assert Pow2(7) == 2 * Pow2(6) && Pow2(6) == 2 * Pow2(5) && Pow2(5) == 2 * Pow2(4);
  }

  // A distance as the number its bits spell.
  function Value(d: Distance): nat
  {
    if d == [] then 0 else 2 * Value(d[..|d| - 1]) + if d[|d| - 1] then 1 else 0
  }

  lemma {:induction false} ValueBounded(d: Distance)
    ensures Value(d) < Pow2(|d|)
  {
    if d == [] {
    } else {
      ValueBounded(d[..|d| - 1]);
    }
  }

  lemma {:induction false} LessMeansSmaller(a: Distance, b: Distance)
    requires |a| == |b| && Less(a, b)
    ensures Value(a) < Value(b)
  {
    var n := |a| - 1;
    var j: nat :| j < |a| && SplitsAt(a, b, j);
    if j == n {
    } else {
      assert SplitsAt(a[..n], b[..n], j) by {
        assert a[..n][..j] == a[..j] && b[..n][..j] == b[..j];
      }
      LessMeansSmaller(a[..n], b[..n]);
    }
  }

  // The order of distances is the order of the numbers.
  lemma LessIffSmaller(a: Distance, b: Distance)
    requires |a| == |b|
    ensures Less(a, b) <==> Value(a) < Value(b)
  {
    LessTotal(a, b, 0);
    if Less(a, b) {
      LessMeansSmaller(a, b);
    } else if Less(b, a) {
      LessMeansSmaller(b, a);
    }
  }

  // Bitwise XOR of two numbers.
  function NatXor(m: nat, n: nat): nat
    decreases m + n
  {
    if m == 0 && n == 0 then 0 else 2 * NatXor(m / 2, n / 2) + if m % 2 != n % 2 then 1 else 0
  }

  lemma XorTake(x: Distance, y: Distance, n: nat)
    requires |x| == |y| && n <= |x|
    ensures Xor(x, y)[..n] == Xor(x[..n], y[..n])
  {
  }

  lemma {:induction false} XorValue(a: Distance, b: Distance)
    requires |a| == |b|
    ensures Value(Xor(a, b)) == NatXor(Value(a), Value(b))
  {
    if a == [] {
    } else {
      var n := |a| - 1;
      XorTake(a, b, n);
      XorValue(a[..n], b[..n]);
      XorValueStep(Value(a[..n]), a[n], Value(b[..n]), b[n]);
      assert Xor(a, b)[n] == (a[n] != b[n]);
    }
  }

  lemma XorValueStep(m: nat, x: bool, n: nat, y: bool)
    ensures NatXor(2 * m + (if x then 1 else 0), 2 * n + (if y then 1 else 0)) == 2 * NatXor(m, n) + if x != y then 1 else 0
  {
    assert (2 * m + (if x then 1 else 0)) / 2 == m && (2 * n + (if y then 1 else 0)) / 2 == n;
    assert NatXor(0, 0) == 0;
  }

  // A key space seen from a root key: `dist(k)` is the XOR of the bits of the root and
  // of `k`, and every distance has `len` bits (`Key::KEY_LENGTH`, 256 or 144).
  datatype Space<!K(!new)> = Space(dist: K -> Distance, len: nat)
  {
    ghost predicate Valid()
    {
      8 < len && forall k :: |dist(k)| == len
    }
  }
}

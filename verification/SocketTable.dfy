/**
 How many socket addresses the socket trie of src/kad.rs can hold. The comment at
 src/kad.rs:49 expects at most 512; the same constants as for peer ids allow 1024, and
 1024 are reached. IPv4 addresses are another matter: at most four of them fit.
 */
module SocketTable {
  import opened Bytes
  import opened Metric
  import opened Trie
  import opened RootTrie
  import opened Peers
  import opened Runs

  // ---------------------------------------------------------------- the first eight bits

  // Two keys are mates exactly when their own first eight bits agree: the root's cancel.
  lemma MatesByBits(s: Space<SocketAddr>, root: SocketAddr, a: SocketAddr, b: SocketAddr)
    requires IsSpace(root, SocketBits, 144, s)
    ensures s.dist(a)[..8] == s.dist(b)[..8] <==> SocketBits(a)[..8] == SocketBits(b)[..8]
  {
    XorTake(SocketBits(root), SocketBits(a), 8);
    XorTake(SocketBits(root), SocketBits(b), 8);
    XorInjective(SocketBits(root)[..8], SocketBits(a)[..8], SocketBits(b)[..8]);
  }

  lemma SocketFirstByte(a: SocketAddr)
    ensures SocketBits(a)[..8] == LowBits(IpOctets(a)[0], 8)
  {
    FirstByte(IpOctets(a) + ToLe(a.port, 2));
  }

  lemma MatesByFirstByte(s: Space<SocketAddr>, root: SocketAddr, a: SocketAddr, b: SocketAddr)
    requires IsSpace(root, SocketBits, 144, s)
    ensures s.dist(a)[..8] == s.dist(b)[..8] <==> IpOctets(a)[0] == IpOctets(b)[0]
  {
    MatesByBits(s, root, a, b);
    SocketFirstByte(a);
    SocketFirstByte(b);
    if LowBits(IpOctets(a)[0], 8) == LowBits(IpOctets(b)[0], 8) {
      PowersOfTwo();
      LowBitsInjective(IpOctets(a)[0], IpOctets(b)[0], 8);
    }
  }

  // ---------------------------------------------------------------- IPv4

  // All IPv4 addresses share their first eight bits, so a table holds at most four, whatever
  // the root and whatever else was added and removed.
  lemma FewIpv4(s: Space<SocketAddr>, root: SocketAddr, ops: seq<Op<SocketAddr>>, ms: seq<map<SocketAddr, U32>>, n: nat)
    requires IsSpace(root, SocketBits, 144, s) && IsRun(s, ops, ms) && ms[0] == map[] && n < |ms|
    ensures |set a | a in ms[n] && a.V4?| <= 4
  {
    RunCapacity(s, ops, ms, n);
    var v4 := set a | a in ms[n] && a.V4?;
    if v4 != {} {
      var key :| key in v4;
      forall a | a in v4 ensures a in Mates(s, ms[n], key) {
        MatesByFirstByte(s, root, a, key);
      }
      SubsetSize(v4, Mates(s, ms[n], key));
    }
  }

  // ---------------------------------------------------------------- a full table

  // 1024 sockets: four ports under each first byte of an IPv6 address.
  function Nth(i: nat): SocketAddr
    requires i < 1024
  {
    V6([i / 4] + seq(15, _ => 0), i % 4, 0, 0)
  }

  lemma NthInjective(i: nat, j: nat)
    requires i < 1024 && j < 1024 && Nth(i) == Nth(j)
    ensures i == j
  {
    assert Nth(i).ip6[0] == Nth(j).ip6[0];
  }

  ghost function FirstN(n: nat): map<SocketAddr, U32>
    requires n <= 1024
  {
    if n == 0 then map[] else FirstN(n - 1)[Nth(n - 1) := n - 1]
  }

  lemma {:induction false} FirstNExact(n: nat, k: SocketAddr)
    requires n <= 1024
    ensures k in FirstN(n) <==> exists i: nat :: i < n && Nth(i) == k
  {
    if n == 0 {
    } else {
      FirstNExact(n - 1, k);
    }
  }

  lemma {:induction false} FirstNSize(n: nat)
    requires n <= 1024
    ensures |FirstN(n)| == n
  {
    if n == 0 {
    } else {
      FirstNSize(n - 1);
      NthIsNew(n - 1);
    }
  }

  lemma NthIsNew(n: nat)
    requires n < 1024
    ensures Nth(n) !in FirstN(n)
  {
    FirstNExact(n, Nth(n));
    forall i: nat | i < n ensures Nth(i) != Nth(n) {
      if Nth(i) == Nth(n) {
        NthInjective(i, n);
      }
    }
  }

  ghost function Between(q: nat, n: nat): set<SocketAddr>
    requires q <= n <= 1024
  {
    if q == n then {} else Between(q, n - 1) + {Nth(n - 1)}
  }

  lemma {:induction false} BetweenHolds(q: nat, n: nat, i: nat)
    requires q <= i < n <= 1024
    ensures Nth(i) in Between(q, n)
  {
    if i == n - 1 {
    } else {
      BetweenHolds(q, n - 1, i);
    }
  }

  lemma {:induction false} BetweenSmall(q: nat, n: nat)
    requires q <= n <= 1024
    ensures |Between(q, n)| <= n - q
    decreases n
  {
    if q == n {
    } else {
      BetweenSmall(q, n - 1);
    }
  }

  lemma MateIsBetween(s: Space<SocketAddr>, root: SocketAddr, n: nat, k: SocketAddr)
    requires IsSpace(root, SocketBits, 144, s) && n < 1024 && k in Mates(s, FirstN(n), Nth(n))
    ensures k in Between(n / 4 * 4, n)
  {
    FirstNExact(n, k);
    var i: nat :| i < n && Nth(i) == k;
    MatesByFirstByte(s, root, Nth(i), Nth(n));
    BetweenHolds(n / 4 * 4, n, i);
  }

  // The next socket meets at most three others with its first byte.
  lemma NthHasRoom(s: Space<SocketAddr>, root: SocketAddr, n: nat)
    requires IsSpace(root, SocketBits, 144, s) && n < 1024
    ensures |Mates(s, FirstN(n), Nth(n))| < K_BUCKET
  {
    forall k | k in Mates(s, FirstN(n), Nth(n)) ensures k in Between(n / 4 * 4, n) {
      MateIsBetween(s, root, n, k);
    }
    BetweenSmall(n / 4 * 4, n);
    SubsetSize(Mates(s, FirstN(n), Nth(n)), Between(n / 4 * 4, n));
  }

  lemma NthIsAdded(s: Space<SocketAddr>, root: SocketAddr, n: nat)
    requires IsSpace(root, SocketBits, 144, s) && n < 1024
    ensures Step(s, FirstN(n), Add(Nth(n), n), FirstN(n + 1))
  {
    NthIsNew(n);
    NthHasRoom(s, root, n);
    assert Outcome(true, [], FirstN(n + 1)) in AddOutcomes(s, FirstN(n), Nth(n), n);
  }

  // The bound of 1024 is reached, from every root.
  lemma FullTable(s: Space<SocketAddr>, root: SocketAddr) returns (ops: seq<Op<SocketAddr>>, ms: seq<map<SocketAddr, U32>>)
    requires IsSpace(root, SocketBits, 144, s)
    ensures IsRun(s, ops, ms) && ms[0] == map[] && |ms[|ops|]| == 1024
  {
    ops := seq(1024, i requires 0 <= i < 1024 => Add(Nth(i), i));
    ms := seq(1025, i requires 0 <= i < 1025 => FirstN(i));
    forall i | 0 <= i < 1024 ensures Step(s, ms[i], ops[i], ms[i + 1]) {
      NthIsAdded(s, root, i);
    }
    FirstNSize(1024);
  }
}

/** Bytes and fixed-width integers, as the wire formats use them. */
module Bytes {
  type byte = x: int | 0 <= x < 256
  type U16 = x: int | 0 <= x < 0x1_0000
  type U32 = x: int | 0 <= x < 0x1_0000_0000
  type U64 = x: int | 0 <= x < 0x1_0000_0000_0000_0000

  function Pow256(k: nat): (r: nat)
    ensures 1 <= r
  {
    if k == 0 then 1 else 256 * Pow256(k - 1)
  }

  // The low `k` bytes of `n`, least significant first: a cast and `to_le_bytes`.
  function ToLe(n: nat, k: nat): (b: seq<byte>)
    ensures |b| == k
  {
    if k == 0 then [] else [n % 256] + ToLe(n / 256, k - 1)
  }

  // The low `k` bytes of `n`, most significant first: a cast and `to_be_bytes`.
  function ToBe(n: nat, k: nat): (b: seq<byte>)
    ensures |b| == k
  {
    if k == 0 then [] else ToBe(n / 256, k - 1) + [n % 256]
  }

  function FromLe(b: seq<byte>): nat
  {
    if b == [] then 0 else b[0] + 256 * FromLe(b[1..])
  }

  function FromBe(b: seq<byte>): nat
  {
    if b == [] then 0 else 256 * FromBe(b[..|b| - 1]) + b[|b| - 1]
  }

  // The most significant byte comes first in one order and last in the other.
  lemma ByteOrder(a: byte, b: byte, c: byte, d: byte)
    ensures FromBe([a, b]) == 256 * a + b && FromLe([a, b]) == a + 256 * b
    ensures FromBe([a, b, c, d]) == 0x100_0000 * a + 0x1_0000 * b + 0x100 * c + d
    ensures FromLe([a, b, c, d]) == a + 0x100 * b + 0x1_0000 * c + 0x100_0000 * d
  {
    assert [a][..0] == [] && [a, b][..1] == [a] && [a, b, c][..2] == [a, b] && [a, b, c, d][..3] == [a, b, c];
    assert FromBe([a]) == a && FromBe([a, b]) == 256 * a + b && FromBe([a, b, c]) == 256 * FromBe([a, b]) + c;
    assert [d][1..] == [] && [c, d][1..] == [d] && [b, c, d][1..] == [c, d] && [a, b, c, d][1..] == [b, c, d];
    assert [b][1..] == [] && [a, b][1..] == [b];
    assert FromLe([d]) == d && FromLe([c, d]) == c + 256 * d && FromLe([b, c, d]) == b + 256 * FromLe([c, d]);
    assert FromLe([b]) == b;
  }

  lemma {:induction false} LeRoundTrip(n: nat, k: nat)
    requires n < Pow256(k)
    ensures FromLe(ToLe(n, k)) == n
  {
    if k == 0 {
    } else {
      LeRoundTrip(n / 256, k - 1);
      assert ToLe(n, k)[1..] == ToLe(n / 256, k - 1);
    }
  }

  lemma {:induction false} BeRoundTrip(n: nat, k: nat)
    requires n < Pow256(k)
    ensures FromBe(ToBe(n, k)) == n
  {
    if k == 0 {
    } else {
      BeRoundTrip(n / 256, k - 1);
      assert ToBe(n, k)[..k - 1] == ToBe(n / 256, k - 1);
    }
  }

  lemma {:induction false} LeInverse(b: seq<byte>)
    ensures ToLe(FromLe(b), |b|) == b
  {
    if b == [] {
    } else {
      LeInverse(b[1..]);
      assert FromLe(b) / 256 == FromLe(b[1..]) && FromLe(b) % 256 == b[0];
    }
  }

  lemma {:induction false} LeBounded(b: seq<byte>)
    ensures FromLe(b) < Pow256(|b|)
  {
    if b == [] {
    } else {
      LeBounded(b[1..]);
    }
  }

  lemma {:induction false} BeBounded(b: seq<byte>)
    ensures FromBe(b) < Pow256(|b|)
  {
    if b == [] {
    } else {
      BeBounded(b[..|b| - 1]);
    }
  }

  lemma Widths()
    ensures Pow256(2) == 0x1_0000 && Pow256(4) == 0x1_0000_0000 && Pow256(8) == 0x1_0000_0000_0000_0000
  {
    assert Pow256(3) == 256 * Pow256(2);
    assert Pow256(6) == 256 * Pow256(5) && Pow256(5) == 256 * Pow256(4);
    assert Pow256(8) == 256 * Pow256(7) && Pow256(7) == 256 * Pow256(6);
  }

  lemma Parts(a: seq<byte>, b: seq<byte>, c: seq<byte>)
    ensures var s := a + b + c; s[..|a|] == a && s[|a|..|a| + |b|] == b && s[|a| + |b|..] == c
  {
  }
}

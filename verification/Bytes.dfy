/** Machine integers, byte strings, and the big-endian integer layout every
    persisted or transmitted field uses. */
module Bytes {

  type byte = x: int | 0 <= x < 0x100
  type u16 = x: int | 0 <= x < 0x1_0000
  type u32 = x: int | 0 <= x < 0x1_0000_0000
  type u64 = x: int | 0 <= x < 0x1_0000_0000_0000_0000

  /** 64-bit arithmetic wraps at this value. */
  const MODULUS: int := 0x1_0000_0000_0000_0000

  /** A std::string: an arbitrary sequence of bytes. */
  type Text = seq<byte>

  datatype Option<+T> = None | Some(value: T) {
    predicate IsFailure() {
      None?
    }

    function PropagateFailure<U>(): Option<U>
      requires None?
    {
      None
    }

    function Extract(): T
      requires Some?
    {
      value
    }
  }

  function Pow256(n: nat): (p: nat)
    ensures p > 0
  {
    if n == 0 then 1 else 256 * Pow256(n - 1)
  }

  /** The n low-order bytes of x, most significant first. */
  function BE(n: nat, x: nat): (b: seq<byte>)
    ensures |b| == n
  {
    if n == 0 then [] else BE(n - 1, x / 256) + [x % 256]
  }

  function FromBE(b: seq<byte>): nat {
    if b == [] then 0 else FromBE(b[..|b| - 1]) * 256 + b[|b| - 1]
  }

  lemma {:induction false} FromBEBound(b: seq<byte>)
    ensures FromBE(b) < Pow256(|b|)
  {
    if b != [] {
      FromBEBound(b[..|b| - 1]);
    }
  }

  lemma {:induction false} BERoundTrip(n: nat, x: nat)
    requires x < Pow256(n)
    ensures FromBE(BE(n, x)) == x
  {
    if n > 0 {
      BERoundTrip(n - 1, x / 256);
      assert BE(n, x)[..n - 1] == BE(n - 1, x / 256);
    }
  }

  lemma {:induction false} FromBERoundTrip(b: seq<byte>)
    ensures BE(|b|, FromBE(b)) == b
  {
    if b != [] {
      FromBERoundTrip(b[..|b| - 1]);
      assert FromBE(b) / 256 == FromBE(b[..|b| - 1]);
    }
  }

  /** Changing only the leading byte moves the value by a multiple of the leading weight. */
  lemma {:induction false} FromBELeading(b: seq<byte>, c: seq<byte>)
    requires |b| == |c| > 0 && b[1..] == c[1..]
    ensures FromBE(c) == FromBE(b) + (c[0] - b[0]) * Pow256(|b| - 1)
  {
    var n := |b| - 1;
    if n > 0 {
      assert b[n] == b[1..][n - 1] == c[1..][n - 1] == c[n];
      assert b[..n][1..] == b[1..][..n - 1] == c[1..][..n - 1] == c[..n][1..];
      FromBELeading(b[..n], c[..n]);
      var d: int := c[0] as int - b[0] as int;
      Regroup(d, Pow256(n - 1));
    }
  }

  lemma Regroup(d: int, p: int)
    ensures d * (256 * p) == (d * p) * 256
  {
  }

  lemma Widths()
    ensures Pow256(1) == 0x100 && Pow256(2) == 0x1_0000
    ensures Pow256(4) == 0x1_0000_0000 && Pow256(8) == 0x1_0000_0000_0000_0000
    ensures Pow256(7) == 0x100_0000_0000_0000
  {
    assert Pow256(3) == 0x100_0000;
    assert Pow256(5) == 0x100_0000_0000;
    assert Pow256(6) == 0x1_0000_0000_0000;
  }

  /** x >> (8 * i), as i shifts by one byte. */
  function ShiftRight(x: nat, i: nat): nat {
    if i == 0 then x else ShiftRight(x, i - 1) / 256
  }

  /** put_be16, put_be32 and put_be64: shift each byte out, high byte first. */
  method PutBE(buf: seq<byte>, n: nat, x: nat) returns (out: seq<byte>)
    ensures out == buf + BE(n, x)
  {
    out := buf;
    var i := n;
    while i > 0
      invariant 0 <= i <= n
      invariant out == buf + BE(n - i, ShiftRight(x, i))
    {
      i := i - 1;
      out := out + [ShiftRight(x, i) % 256];
    }
  }

  /** get_be16, get_be32 and get_be64: shift in one byte per turn. */
  method GetBE(p: seq<byte>) returns (x: nat)
    ensures x == FromBE(p)
  {
    x := 0;
    for i := 0 to |p|
      invariant x == FromBE(p[..i])
    {
      assert p[..i + 1][..i] == p[..i];
      x := x * 256 + p[i];
    }
    assert p[..|p|] == p;
  }
}

/** The frame checksum of persistence.cpp: xor a byte in, multiply by an odd
    constant modulo 2^64. */
module Checksum {
  import opened Bytes

  const OFFSET: u64 := 1469598103934665603
  const PRIME: u64 := 1099511628211

  function Pow2(n: nat): nat {
    if n == 0 then 1 else 2 * Pow2(n - 1)
  }

  /** Bitwise exclusive or. */
  function Xor(a: nat, b: nat): nat
    decreases a + b
  {
    if a == 0 && b == 0 then 0
    else 2 * Xor(a / 2, b / 2) + (if a % 2 == b % 2 then 0 else 1)
  }

  lemma {:induction false} XorBound(a: nat, b: nat, n: nat)
    requires a < Pow2(n) && b < Pow2(n)
    ensures Xor(a, b) < Pow2(n)
  {
    if n > 0 {
      XorBound(a / 2, b / 2, n - 1);
    }
  }

  lemma {:induction false} XorZero(a: nat)
    ensures Xor(a, 0) == a
  {
    if a > 0 {
      XorZero(a / 2);
    }
  }

  lemma {:induction false} XorUndoes(a: nat, b: nat)
    ensures Xor(Xor(a, b), b) == a
    decreases a + b
  {
    if a + b > 0 {
      XorUndoes(a / 2, b / 2);
      var x := Xor(a, b);
      assert x / 2 == Xor(a / 2, b / 2);
      if x == 0 && b == 0 {
      } else {
        assert Xor(x, b) == 2 * Xor(x / 2, b / 2) + (if x % 2 == b % 2 then 0 else 1);
      }
    }
  }

  lemma {:induction false} XorSymmetric(a: nat, b: nat)
    ensures Xor(a, b) == Xor(b, a)
    decreases a + b
  {
    if a + b > 0 {
      XorSymmetric(a / 2, b / 2);
    }
  }

  lemma XorHalf(a: nat, b: nat)
    ensures Xor(a, b) / 2 == Xor(a / 2, b / 2)
  {
  }

  /** Xor with a byte leaves everything above the low byte alone. */
  lemma XorKeepsHigh(h: nat, b: byte)
    ensures Xor(h, b) / 256 == h / 256
  {
    HalveEight(h);
    HalveEight(b);
    HalveEight(Xor(h, b));
    XorHalf(h, b);
    XorHalf(h / 2, b / 2);
    XorHalf(h / 2 / 2, b / 2 / 2);
    XorHalf(h / 2 / 2 / 2, b / 2 / 2 / 2);
    XorHalf(h / 2 / 2 / 2 / 2, b / 2 / 2 / 2 / 2);
    XorHalf(h / 2 / 2 / 2 / 2 / 2, b / 2 / 2 / 2 / 2 / 2);
    XorHalf(h / 2 / 2 / 2 / 2 / 2 / 2, b / 2 / 2 / 2 / 2 / 2 / 2);
    XorHalf(h / 2 / 2 / 2 / 2 / 2 / 2 / 2, b / 2 / 2 / 2 / 2 / 2 / 2 / 2);
    XorZero(h / 256);
  }

  lemma HalveEight(x: nat)
    ensures x / 2 / 2 / 2 / 2 / 2 / 2 / 2 / 2 == x / 256
  {
  }

  function Mix(h: u64, b: byte): u64 {
    Xor(h, b) * PRIME % MODULUS
  }

  /** fnv1a64 as a fold over the bytes. */
  function Fnv(s: seq<byte>): u64 {
    if s == [] then OFFSET else Mix(Fnv(s[..|s| - 1]), s[|s| - 1])
  }

  /** The loop of fnv1a64. */
  method Fnv1a64(data: seq<byte>) returns (h: u64)
    ensures h == Fnv(data)
  {
    h := OFFSET;
    for i := 0 to |data|
      invariant h == Fnv(data[..i])
    {
      assert data[..i + 1][..i] == data[..i];
      h := Xor(h, data[i]) * PRIME % MODULUS;
    }
    assert data[..|data|] == data;
  }

  /** The multiplier is odd, so multiplication modulo 2^64 can be undone. */
  lemma MultiplyInjective(a: u64, b: u64)
    requires a * PRIME % MODULUS == b * PRIME % MODULUS
    ensures a == b
  {
    var inverse, k := 14886173955864302971, 887285111055;
    assert PRIME * inverse == 1 + k * MODULUS;
    var qa, qb := a * PRIME / MODULUS, b * PRIME / MODULUS;
    assert (a - b) * PRIME == (qa - qb) * MODULUS;
    assert (a - b) * (1 + k * MODULUS) == (qa - qb) * inverse * MODULUS;
    assert a - b == ((qa - qb) * inverse - (a - b) * k) * MODULUS;
  }

  lemma {:induction false} ByteWeights(n: nat)
    ensures Pow2(8 * n) == Pow256(n)
  {
    if n > 0 {
      ByteWeights(n - 1);
      var m := 8 * (n - 1);
      assert Pow2(m + 4) == 16 * Pow2(m) by {
        assert Pow2(m + 2) == 4 * Pow2(m);
      }
      assert Pow2(m + 8) == 16 * Pow2(m + 4) by {
        assert Pow2(m + 6) == 4 * Pow2(m + 4);
      }
    }
  }

  lemma XorRange(h: u64, b: byte)
    ensures 0 <= Xor(h, b) < MODULUS
  {
    ByteWeights(8);
    Widths();
    XorBound(h, b, 64);
  }

  lemma MixInjective(h: u64, b: byte, h': u64, b': byte)
    requires Mix(h, b) == Mix(h', b')
    ensures Xor(h, b) == Xor(h', b')
  {
    XorRange(h, b);
    XorRange(h', b');
    MultiplyInjective(Xor(h, b), Xor(h', b'));
  }

  /** A difference in the running value survives every further byte. */
  lemma MixKeepsDifference(h: u64, h': u64, b: byte)
    requires h != h'
    ensures Mix(h, b) != Mix(h', b)
  {
    if Mix(h, b) == Mix(h', b) {
      MixInjective(h, b, h', b);
      XorUndoes(h, b);
      XorUndoes(h', b);
    }
  }

  /** A difference in one byte reaches the running value. */
  lemma MixSeesByte(h: u64, b: byte, b': byte)
    requires b != b'
    ensures Mix(h, b) != Mix(h, b')
  {
    if Mix(h, b) == Mix(h, b') {
      MixInjective(h, b, h, b');
      XorSymmetric(h, b);
      XorSymmetric(h, b');
      XorUndoes(b, h);
      XorUndoes(b', h);
    }
  }

  /** How far two different bytes drive the running value apart: a nonzero
      multiple of the prime that is too small to wrap. */
  lemma MixSpread(h: u64, b: byte, b': byte) returns (d: int, k: int)
    requires b != b'
    ensures d != 0 && -256 < d < 256
    ensures Mix(h, b') - Mix(h, b) == d * PRIME + k * MODULUS
  {
    var x, x' := Xor(h, b), Xor(h, b');
    XorKeepsHigh(h, b);
    XorKeepsHigh(h, b');
    d, k := x' - x, x * PRIME / MODULUS - x' * PRIME / MODULUS;
    MixSeesByte(h, b, b');
  }

  /** The next byte cannot make up for a change in the byte before it. */
  lemma MixSeesPair(h: u64, b: byte, b': byte, c: byte, c': byte)
    requires b != b'
    ensures Mix(Mix(h, b), c) != Mix(Mix(h, b'), c')
  {
    var g, g' := Mix(h, b), Mix(h, b');
    var d, k := MixSpread(h, b, b');
    if Mix(g, c) == Mix(g', c') {
      MixInjective(g, c, g', c');
      XorKeepsHigh(g, c);
      XorKeepsHigh(g', c');
    }
  }

  /** s and t agree everywhere but possibly at i and i + 1. */
  ghost predicate Burst(s: seq<byte>, t: seq<byte>, i: nat) {
    |s| == |t| && forall j :: 0 <= j < |s| && j != i && j != i + 1 ==> s[j] == t[j]
  }

  /** Corruption detection: no change confined to two adjacent bytes keeps the checksum. */
  lemma {:induction false} BurstDetected(s: seq<byte>, t: seq<byte>, i: nat)
    requires Burst(s, t, i) && s != t
    ensures Fnv(s) != Fnv(t)
  {
    hide Mix;
    var n := |s| - 1;
    var s', t' := s[..n], t[..n];
    if s' == t' {
      assert s == s' + [s[n]] && t == t' + [t[n]];
      MixSeesByte(Fnv(s'), s[n], t[n]);
    } else if s[n] == t[n] {
      BurstDetected(s', t', i);
      MixKeepsDifference(Fnv(s'), Fnv(t'), s[n]);
    } else {
      assert i + 1 == n;
      assert s'[..i] == t'[..i] && s[i] != t[i];
      assert s' == s'[..i] + [s[i]] && t' == t'[..i] + [t[i]];
      MixSeesPair(Fnv(s'[..i]), s[i], t[i], s[n], t[n]);
    }
  }

  /** A change of the last byte never amounts to a change of the checksum's top byte alone. */
  lemma LastByteSpreads(h: u64, b: byte, b': byte, e: int)
    requires b != b' && -256 < e < 256
    ensures Mix(h, b') != Mix(h, b) + e * 0x100_0000_0000_0000
  {
    var d, k := MixSpread(h, b, b');
  }
}

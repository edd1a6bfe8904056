/** 128-bit identities, their hexadecimal text, and generation counters. */
module Ids {
  import opened Bytes

  /** A uuid128, as the number its sixteen bytes spell most significant first. */
  type Uuid = x: int | 0 <= x < 0x1_0000_0000_0000_0000_0000_0000_0000_0000

  const NULL_ID: Uuid := 0

  function IdBytes(u: Uuid): (b: seq<byte>)
    ensures |b| == 16
  {
    BE(16, u)
  }

  function IdOfBytes(b: seq<byte>): (u: Uuid)
    requires |b| == 16
  {
    FromBEBound(b);
    IdWidth();
    FromBE(b)
  }

  lemma IdWidth()
    ensures Pow256(16) == 0x1_0000_0000_0000_0000_0000_0000_0000_0000
  {
    Widths();
    assert Pow256(10) == 0x1_0000 * Pow256(8);
    assert Pow256(12) == 0x1_0000 * Pow256(10);
    assert Pow256(14) == 0x1_0000 * Pow256(12);
    assert Pow256(16) == 0x1_0000 * Pow256(14);
  }

  /** Identities and their sixteen bytes determine each other. */
  lemma IdBytesExact(u: Uuid, b: seq<byte>)
    requires |b| == 16
    ensures IdOfBytes(IdBytes(u)) == u && IdBytes(IdOfBytes(b)) == b
  {
    IdWidth();
    BERoundTrip(16, u);
    FromBERoundTrip(b);
  }

  const DIGITS: string := "0123456789abcdef"

  function Digit(n: nat): char {
    if n < 10 then ('0' as int + n) as char
    else if n < 16 then ('a' as int + (n - 10)) as char
    else '?'
  }

  lemma DigitIsListed(n: nat)
    requires n < 16
    ensures DIGITS[n] == Digit(n)
  {
  }

  /** Generation::next, which wraps as the source's uint64_t does. */
  function Next(g: u64): u64 {
    if g == 0xFFFF_FFFF_FFFF_FFFF then 0 else g + 1
  }

  // ---------------------------------------------------------------- hex text

  predicate IsHexDigit(c: char) {
    '0' <= c <= '9' || 'a' <= c <= 'f' || 'A' <= c <= 'F'
  }

  /** is_valid_hex: one to 32 hexadecimal digits. */
  predicate ValidHex(s: string) {
    1 <= |s| <= 32 && forall i :: 0 <= i < |s| ==> IsHexDigit(s[i])
  }

  function Nibble(c: char): (n: int)
    ensures IsHexDigit(c) ==> 0 <= n < 16
  {
    if '0' <= c <= '9' then c as int - '0' as int
    else if 'a' <= c <= 'f' then c as int - 'a' as int + 10
    else if 'A' <= c <= 'F' then c as int - 'A' as int + 10
    else -1
  }

  function LowerChar(c: char): char {
    if 'A' <= c <= 'F' then (c as int - 'A' as int + 'a' as int) as char else c
  }

  function Lower(s: string): (r: string)
    ensures |r| == |s|
  {
    if s == "" then "" else [LowerChar(s[0])] + Lower(s[1..])
  }

  function Zeros(n: nat): (z: string)
    ensures |z| == n && forall i :: 0 <= i < n ==> z[i] == '0'
  {
    if n == 0 then "" else Zeros(n - 1) + "0"
  }

  /** The digits of each byte, high nibble first. */
  function HexOf(b: seq<byte>): (s: string)
    ensures |s| == 2 * |b|
  {
    if b == [] then ""
    else HexOf(b[..|b| - 1]) + [Digit(b[|b| - 1] / 16), Digit(b[|b| - 1] % 16)]
  }

  /** The byte two digits spell. */
  function PairByte(hi: char, lo: char): byte {
    if IsHexDigit(hi) && IsHexDigit(lo) then Nibble(hi) * 16 + Nibble(lo) else 0
  }

  /** The bytes written by consecutive digit pairs. */
  function Pairs(s: string): (b: seq<byte>)
    requires |s| % 2 == 0
    ensures |b| == |s| / 2
  {
    if s == "" then []
    else Pairs(s[..|s| - 2]) + [PairByte(s[|s| - 2], s[|s| - 1])]
  }

  /** uuid128_from_hex: invalid text gives the null identity. */
  function FromHex(s: string): Uuid {
    if ValidHex(s) then IdOfBytes(Pairs(Zeros(32 - |s|) + s)) else NULL_ID
  }

  function ToHex(u: Uuid): string {
    HexOf(IdBytes(u))
  }

  method IsValidHex(s: string) returns (ok: bool)
    ensures ok == ValidHex(s)
  {
    if |s| == 0 || |s| > 32 {
      return false;
    }
    for i := 0 to |s|
      invariant forall k :: 0 <= k < i ==> IsHexDigit(s[k])
    {
      if !IsHexDigit(s[i]) {
        return false;
      }
    }
    return true;
  }

  method UuidToHex(u: Uuid) returns (s: string)
    ensures s == ToHex(u)
  {
    s := "";
    var b := IdBytes(u);
    for i := 0 to 16
      invariant s == HexOf(b[..i])
    {
      assert b[..i + 1][..i] == b[..i];
      DigitIsListed(b[i] / 16);
      DigitIsListed(b[i] % 16);
      s := s + [DIGITS[b[i] / 16]];
      s := s + [DIGITS[b[i] % 16]];
    }
    assert b[..16] == b;
  }

  method UuidFromHex(s: string) returns (u: Uuid)
    ensures u == FromHex(s)
  {
    var valid := IsValidHex(s);
    if !valid {
      return NULL_ID;
    }
    var full := Zeros(32 - |s|) + s;
    var b: seq<byte> := [];
    for i := 0 to 16
      invariant b == Pairs(full[..2 * i])
    {
      b := b + [ReadPair(full, i)];
    }
    assert full[..32] == full;
    u := IdOfBytes(b);
  }

  /** One turn of the decoding loop: (hi << 4) | lo, with the pairs read so far. */
  function ReadPair(full: string, i: nat): (x: byte)
    requires 2 * i + 1 < |full| && IsHexDigit(full[2 * i]) && IsHexDigit(full[2 * i + 1])
    ensures Pairs(full[..2 * (i + 1)]) == Pairs(full[..2 * i]) + [x]
  {
    PairsAppend(full[..2 * i], full[2 * i], full[2 * i + 1]);
    assert full[..2 * (i + 1)] == full[..2 * i] + [full[2 * i], full[2 * i + 1]];
    Nibble(full[2 * i]) * 16 + Nibble(full[2 * i + 1])
  }

  lemma DigitNibble(n: nat)
    requires n < 16
    ensures IsHexDigit(Digit(n)) && Nibble(Digit(n)) == n
  {
  }

  lemma NibbleDigit(c: char)
    requires IsHexDigit(c)
    ensures Digit(Nibble(c)) == LowerChar(c)
  {
  }

  /** Reading the two digits of a byte gives the byte. */
  lemma DigitsSpell(x: byte)
    ensures PairByte(Digit(x / 16), Digit(x % 16)) == x
  {
    DigitNibble(x / 16);
    DigitNibble(x % 16);
  }

  /** Printing the byte two digits spell gives the digits, in lower case. */
  lemma SpelledDigits(hi: char, lo: char)
    requires IsHexDigit(hi) && IsHexDigit(lo)
    ensures Digit(PairByte(hi, lo) / 16) == LowerChar(hi)
    ensures Digit(PairByte(hi, lo) % 16) == LowerChar(lo)
  {
    NibbleDigit(hi);
    NibbleDigit(lo);
  }

  lemma {:induction false} LowerAt(s: string, i: nat)
    requires i < |s|
    ensures Lower(s)[i] == LowerChar(s[i])
  {
    if i > 0 {
      LowerAt(s[1..], i - 1);
    }
  }

  lemma HexOfAppend(b: seq<byte>, x: byte)
    ensures HexOf(b + [x]) == HexOf(b) + [Digit(x / 16), Digit(x % 16)]
  {
    hide Digit;
    assert (b + [x])[..|b|] == b;
  }

  lemma PairsAppend(s: string, c: char, d: char)
    requires |s| % 2 == 0
    ensures Pairs(s + [c, d]) == Pairs(s) + [PairByte(c, d)]
  {
    hide PairByte;
    assert (s + [c, d])[..|s|] == s;
  }

  lemma LowerAppend(s: string, c: char, d: char)
    ensures Lower(s + [c, d]) == Lower(s) + [LowerChar(c), LowerChar(d)]
  {
    hide LowerChar;
    LowerConcat(s, [c, d]);
    assert [c, d][1..] == [d];
  }

  lemma {:induction false} LowerConcat(s: string, t: string)
    ensures Lower(s + t) == Lower(s) + Lower(t)
  {
    hide LowerChar;
    if s == "" {
      assert s + t == t;
    } else {
      LowerConcat(s[1..], t);
      assert (s + t)[1..] == s[1..] + t;
    }
  }

  lemma HexReadLast(b: seq<byte>, n: nat)
    requires |b| == n + 1 && Pairs(HexOf(b[..n])) == b[..n]
    ensures Pairs(HexOf(b)) == b
  {
    hide *;
    var front, x := b[..n], b[n];
    HexOfAppend(front, x);
    PairsAppend(HexOf(front), Digit(x / 16), Digit(x % 16));
    DigitsSpell(x);
    assert b == front + [x];
  }

  lemma {:induction false} HexRead(b: seq<byte>)
    ensures Pairs(HexOf(b)) == b
  {
    if b != [] {
      HexRead(b[..|b| - 1]);
      HexReadLast(b, |b| - 1);
    }
  }

  lemma {:induction false} HexOfIsHex(b: seq<byte>)
    ensures forall i :: 0 <= i < |HexOf(b)| ==> IsHexDigit(HexOf(b)[i])
  {
    if b != [] {
      hide IsHexDigit, Digit;
      var n := |b| - 1;
      HexOfIsHex(b[..n]);
      DigitNibble(b[n] / 16);
      DigitNibble(b[n] % 16);
    }
  }

  lemma HexPrintLast(s: string, n: nat)
    requires |s| == n + 2 && n % 2 == 0 && IsHexDigit(s[n]) && IsHexDigit(s[n + 1])
    requires HexOf(Pairs(s[..n])) == Lower(s[..n])
    ensures HexOf(Pairs(s)) == Lower(s)
  {
    hide *;
    var front, c, d := s[..n], s[n], s[n + 1];
    PairsAppend(front, c, d);
    HexOfAppend(Pairs(front), PairByte(c, d));
    SpelledDigits(c, d);
    LowerAppend(front, c, d);
    assert s == front + [c, d];
  }

  lemma {:induction false} HexPrint(s: string)
    requires |s| % 2 == 0 && forall i :: 0 <= i < |s| ==> IsHexDigit(s[i])
    ensures HexOf(Pairs(s)) == Lower(s)
  {
    if s != "" {
      HexPrint(s[..|s| - 2]);
      HexPrintLast(s, |s| - 2);
    }
  }

  lemma {:induction false} LowerZeros(n: nat)
    ensures Lower(Zeros(n)) == Zeros(n)
  {
    if n > 0 {
      LowerZeros(n - 1);
      LowerConcat(Zeros(n - 1), "0");
    }
  }

  /** from_hex(to_hex(u)) is u. */
  lemma HexRoundTrip(u: Uuid)
    ensures FromHex(ToHex(u)) == u
  {
    hide HexOf, Pairs, BE, FromBE, IsHexDigit;
    var b := IdBytes(u);
    HexRead(b);
    HexOfIsHex(b);
    IdBytesExact(u, b);
    assert Zeros(0) + HexOf(b) == HexOf(b);
  }

  lemma PaddedPrint(zeros: string, s: string)
    requires (|zeros| + |s|) % 2 == 0
    requires forall i :: 0 <= i < |zeros| ==> zeros[i] == '0'
    requires forall i :: 0 <= i < |s| ==> IsHexDigit(s[i])
    ensures HexOf(Pairs(zeros + s)) == Lower(zeros + s)
  {
    forall i | 0 <= i < |zeros + s| ensures IsHexDigit((zeros + s)[i]) {
    }
    HexPrint(zeros + s);
  }

  /** to_hex(from_hex(s)) is s in lower case, padded with zeros to 32 digits. */
  lemma HexNormalises(s: string)
    requires ValidHex(s)
    ensures ToHex(FromHex(s)) == Zeros(32 - |s|) + Lower(s)
  {
    hide HexOf, Pairs, Lower, FromBE, BE, IsHexDigit, Zeros;
    var zeros := Zeros(32 - |s|);
    PaddedPrint(zeros, s);
    IdBytesExact(0, Pairs(zeros + s));
    LowerConcat(zeros, s);
    LowerZeros(32 - |s|);
  }

  /** Text that is not valid gives the null identity, which prints as 32 zeros. */
  lemma HexOfInvalid(s: string)
    requires !ValidHex(s)
    ensures ToHex(FromHex(s)) == Zeros(32)
  {
    hide HexOf, BE, Zeros;
    ZeroHex(16);
  }

  lemma {:induction false} ZeroHex(n: nat)
    ensures HexOf(BE(n, 0)) == Zeros(2 * n)
  {
    if n > 0 {
      ZeroHex(n - 1);
      HexOfAppend(BE(n - 1, 0), 0);
      assert Zeros(2 * n - 1) == Zeros(2 * n - 2) + "0";
    }
  }

  /** Which text is an identity: one to 32 of the twenty-two hexadecimal digits. */
  lemma ValidHexExactly(s: string)
    ensures ValidHex(s) <==>
              1 <= |s| <= 32 && forall i :: 0 <= i < |s| ==> s[i] in "0123456789abcdefABCDEF"
  {
    forall c: char ensures IsHexDigit(c) <==> c in "0123456789abcdefABCDEF" {
      HexDigits(c);
    }
  }

  lemma HexDigits(c: char)
    ensures IsHexDigit(c) <==> c in "0123456789abcdefABCDEF"
  {
  }

  lemma {:induction false} LowerTwice(s: string)
    ensures Lower(Lower(s)) == Lower(s)
    ensures ValidHex(Lower(s)) <==> ValidHex(s)
  {
    forall i | 0 <= i < |s| ensures Lower(s)[i] == LowerChar(s[i]) {
      LowerAt(s, i);
    }
    forall i | 0 <= i < |s| ensures Lower(Lower(s))[i] == LowerChar(LowerChar(s[i])) {
      LowerAt(Lower(s), i);
    }
  }

  /** Upper and lower case make no difference. */
  lemma CaseIgnored(s: string)
    ensures FromHex(Lower(s)) == FromHex(s)
  {
    hide FromHex, ToHex, Lower, ValidHex;
    LowerTwice(s);
    HexRoundTrip(FromHex(s));
    HexRoundTrip(FromHex(Lower(s)));
    if ValidHex(s) {
      HexNormalises(s);
      HexNormalises(Lower(s));
    } else {
      HexOfInvalid(s);
      HexOfInvalid(Lower(s));
    }
  }
}

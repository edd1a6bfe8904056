/** The binary field layouts of persistence.cpp: what each kind of field looks
    like, how it is read back, and the cursor classes that write and read it. */
module Codec {
  import opened Bytes
  import opened Ids
  import opened Authority

  // ----------------------------------------------------------- field layouts

  function U8Bytes(x: byte): (b: seq<byte>)
    ensures |b| == 1
  {
    BE(1, x)
  }

  function U16Bytes(x: u16): (b: seq<byte>)
    ensures |b| == 2
  {
    BE(2, x)
  }

  function U32Bytes(x: u32): (b: seq<byte>)
    ensures |b| == 4
  {
    BE(4, x)
  }

  function U64Bytes(x: u64): (b: seq<byte>)
    ensures |b| == 8
  {
    BE(8, x)
  }

  /** A length and the bytes; text longer than a 16-bit length is written as empty. */
  function TextBytes(s: Text): (b: seq<byte>)
    ensures |b| == 2 + |Clip(s)|
  {
    U16Bytes(|Clip(s)|) + Clip(s)
  }

  function Clip(s: Text): (c: Text)
    ensures |c| <= 0xFFFF
    ensures |s| <= 0xFFFF ==> c == s
  {
    if |s| > 0xFFFF then [] else s
  }

  function BoolBytes(x: bool): (b: seq<byte>)
    ensures |b| == 1
  {
    U8Bytes(if x then 1 else 0)
  }

  function EnvelopeBytes(e: Envelope): (b: seq<byte>)
    ensures |b| == 88
  {
    U64Bytes(e.epoch) + IdBytes(e.boot) + IdBytes(e.attempt) + IdBytes(e.dispatch)
    + U64Bytes(e.attemptGen) + U64Bytes(e.operationGen) + U64Bytes(e.failureGen) + U64Bytes(e.recoveryGen)
  }

  // ------------------------------------------------- reading a field off the front

  function ParseInt(n: nat, s: seq<byte>): Option<(nat, seq<byte>)> {
    if |s| < n then None else Some((FromBE(s[..n]), s[n..]))
  }

  function ParseU8(s: seq<byte>): Option<(byte, seq<byte>)> {
    FromWidth(s, 1);
    ParseInt(1, s)
  }

  function ParseU16(s: seq<byte>): Option<(u16, seq<byte>)> {
    FromWidth(s, 2);
    ParseInt(2, s)
  }

  function ParseU32(s: seq<byte>): Option<(u32, seq<byte>)> {
    FromWidth(s, 4);
    ParseInt(4, s)
  }

  function ParseU64(s: seq<byte>): Option<(u64, seq<byte>)> {
    FromWidth(s, 8);
    ParseInt(8, s)
  }

  function ParseId(s: seq<byte>): Option<(Uuid, seq<byte>)> {
    if |s| < 16 then None else Some((IdOfBytes(s[..16]), s[16..]))
  }

  function ParseText(s: seq<byte>): Option<(Text, seq<byte>)> {
    var (len, rest) :- ParseU16(s);
    if |rest| < len then None else Some((rest[..len], rest[len..]))
  }

  function ParseBool(s: seq<byte>): Option<(bool, seq<byte>)> {
    var (b, rest) :- ParseU8(s);
    Some((b != 0, rest))
  }

  /** An enumeration of the given size; other values are refused. */
  function ParseEnum(size: nat, s: seq<byte>): (r: Option<(u32, seq<byte>)>)
    ensures r.Some? ==> r.value.0 < size
  {
    var (v, rest) :- ParseU32(s);
    if v < size then Some((v, rest)) else None
  }

  function ParseEnvelope(s: seq<byte>): Option<(Envelope, seq<byte>)> {
    var (epoch, s) :- ParseU64(s);
    var (boot, s) :- ParseId(s);
    var (attempt, s) :- ParseId(s);
    var (dispatch, s) :- ParseId(s);
    var (attemptGen, s) :- ParseU64(s);
    var (operationGen, s) :- ParseU64(s);
    var (failureGen, s) :- ParseU64(s);
    var (recoveryGen, s) :- ParseU64(s);
    Some((Envelope(epoch, boot, attempt, dispatch, attemptGen, operationGen, failureGen, recoveryGen), s))
  }

  /** validate_authority: a set attempt has a generation, a set boot an epoch. */
  predicate ValidAuthority(e: Envelope) {
    (e.attempt != NULL_ID ==> e.attemptGen != 0) && (e.boot != NULL_ID ==> e.epoch != 0)
  }

  lemma FromWidth(s: seq<byte>, n: nat)
    ensures |s| >= n ==> FromBE(s[..n]) < Pow256(n)
    ensures Pow256(1) == 0x100 && Pow256(2) == 0x1_0000
    ensures Pow256(4) == 0x1_0000_0000 && Pow256(8) == 0x1_0000_0000_0000_0000
  {
    Widths();
    if |s| >= n {
      FromBEBound(s[..n]);
    }
  }

  // ------------------------------------------------- layouts and readers are inverse

  lemma Concat(a: seq<byte>, b: seq<byte>, c: seq<byte>)
    ensures (a + b) + c == a + (b + c)
  {
  }

  /** Four parts and a tail, regrouped to the right. */
  lemma Concat4(a: seq<byte>, b: seq<byte>, c: seq<byte>, d: seq<byte>, t: seq<byte>)
    ensures a + b + c + d + t == a + (b + (c + (d + t)))
  {
    Concat(a + b + c, d, t);
    Concat(a + b, c, d + t);
    Concat(a, b, c + (d + t));
  }

  /** Eight parts and a tail, regrouped to the right. */
  lemma Concat8(a: seq<byte>, b: seq<byte>, c: seq<byte>, d: seq<byte>,
                e: seq<byte>, f: seq<byte>, g: seq<byte>, h: seq<byte>, t: seq<byte>)
    ensures a + b + c + d + e + f + g + h + t == a + (b + (c + (d + (e + (f + (g + (h + t)))))))
  {
    Concat4(a + b + c + d + e, f, g, h, t);
    Concat(a + b + c + d, e, f + (g + (h + t)));
    Concat4(a, b, c, d, e + (f + (g + (h + t))));
  }

  /** Appending eight parts one by one appends their concatenation. */
  lemma WriterGroups(buf: seq<byte>, a: seq<byte>, b: seq<byte>, c: seq<byte>, d: seq<byte>,
                     e: seq<byte>, f: seq<byte>, g: seq<byte>, h: seq<byte>)
    ensures buf + a + b + c + d + e + f + g + h == buf + (a + b + c + d + e + f + g + h)
  {
    Concat8(buf, a, b, c, d, e, f, g, h);
    Concat8([], a, b, c, d, e, f, g, h);
    Concat4(a, b, c, d, e + (f + (g + h)));
    Concat4(a + b + c + d, e, f, g, h);
  }

  lemma IntReads(n: nat, x: nat, t: seq<byte>)
    requires x < Pow256(n)
    ensures ParseInt(n, BE(n, x) + t) == Some((x, t))
  {
    BERoundTrip(n, x);
    var s := BE(n, x) + t;
    assert s[..n] == BE(n, x) && s[n..] == t;
  }

  lemma IntSpells(n: nat, s: seq<byte>)
    ensures ParseInt(n, s).Some? ==> s == BE(n, ParseInt(n, s).value.0) + ParseInt(n, s).value.1
  {
    if |s| >= n {
      FromBERoundTrip(s[..n]);
      assert s == s[..n] + s[n..];
    }
  }

  lemma U8Reads(x: byte, t: seq<byte>)
    ensures ParseU8(U8Bytes(x) + t) == Some((x, t))
  {
    Widths();
    IntReads(1, x, t);
  }

  lemma U16Reads(x: u16, t: seq<byte>)
    ensures ParseU16(U16Bytes(x) + t) == Some((x, t))
  {
    Widths();
    IntReads(2, x, t);
  }

  lemma U32Reads(x: u32, t: seq<byte>)
    ensures ParseU32(U32Bytes(x) + t) == Some((x, t))
  {
    Widths();
    IntReads(4, x, t);
  }

  lemma U64Reads(x: u64, t: seq<byte>)
    ensures ParseU64(U64Bytes(x) + t) == Some((x, t))
  {
    Widths();
    IntReads(8, x, t);
  }

  lemma IdReads(u: Uuid, t: seq<byte>)
    ensures ParseId(IdBytes(u) + t) == Some((u, t))
  {
    hide IdBytes, IdOfBytes;
    var s := IdBytes(u) + t;
    assert s[..16] == IdBytes(u) && s[16..] == t;
    IdBytesExact(u, s[..16]);
  }

  lemma TextReads(x: Text, t: seq<byte>)
    ensures ParseText(TextBytes(x) + t) == Some((Clip(x), t))
  {
    hide ParseU16, U16Bytes;
    var c := Clip(x);
    Concat(U16Bytes(|c|), c, t);
    U16Reads(|c|, c + t);
    assert (c + t)[..|c|] == c && (c + t)[|c|..] == t;
  }

  lemma BoolReads(x: bool, t: seq<byte>)
    ensures ParseBool(BoolBytes(x) + t) == Some((x, t))
  {
    U8Reads(if x then 1 else 0, t);
  }

  /** Numbers of 8, 32 and 64 bits, identities, texts and flags, followed by anything,
      read back as their value and that rest. */
  lemma AllRead()
    ensures forall x: byte, t {:trigger U8Bytes(x) + t} :: ParseU8(U8Bytes(x) + t) == Some((x, t))
    ensures forall x: u32, t {:trigger U32Bytes(x) + t} :: ParseU32(U32Bytes(x) + t) == Some((x, t))
    ensures forall x: u64, t {:trigger U64Bytes(x) + t} :: ParseU64(U64Bytes(x) + t) == Some((x, t))
    ensures forall x: Uuid, t {:trigger IdBytes(x) + t} :: ParseId(IdBytes(x) + t) == Some((x, t))
    ensures forall x: Text, t {:trigger TextBytes(x) + t} :: ParseText(TextBytes(x) + t) == Some((Clip(x), t))
    ensures forall x: bool, t {:trigger BoolBytes(x) + t} :: ParseBool(BoolBytes(x) + t) == Some((x, t))
  {
    hide *;
    forall x: byte, t ensures ParseU8(U8Bytes(x) + t) == Some((x, t)) {
      U8Reads(x, t);
    }
    forall x: u32, t ensures ParseU32(U32Bytes(x) + t) == Some((x, t)) {
      U32Reads(x, t);
    }
    forall x: u64, t ensures ParseU64(U64Bytes(x) + t) == Some((x, t)) {
      U64Reads(x, t);
    }
    forall x: Uuid, t ensures ParseId(IdBytes(x) + t) == Some((x, t)) {
      IdReads(x, t);
    }
    forall x: Text, t ensures ParseText(TextBytes(x) + t) == Some((Clip(x), t)) {
      TextReads(x, t);
    }
    forall x: bool, t ensures ParseBool(BoolBytes(x) + t) == Some((x, t)) {
      BoolReads(x, t);
    }
  }

  lemma U32Spells(s: seq<byte>)
    requires ParseU32(s).Some?
    ensures s == U32Bytes(ParseU32(s).value.0) + ParseU32(s).value.1
  {
    IntSpells(4, s);
  }

  lemma U64Spells(s: seq<byte>)
    requires ParseU64(s).Some?
    ensures s == U64Bytes(ParseU64(s).value.0) + ParseU64(s).value.1
  {
    IntSpells(8, s);
  }

  lemma IdSpells(s: seq<byte>)
    requires ParseId(s).Some?
    ensures s == IdBytes(ParseId(s).value.0) + ParseId(s).value.1
  {
    hide IdBytes, IdOfBytes;
    IdBytesExact(0, s[..16]);
    assert s == s[..16] + s[16..];
  }

  lemma TextSpells(s: seq<byte>)
    requires ParseText(s).Some?
    ensures s == TextBytes(ParseText(s).value.0) + ParseText(s).value.1
  {
    hide BE, FromBE;
    IntSpells(2, s);
    var (len, rest) := ParseU16(s).value;
    assert rest == rest[..len] + rest[len..];
    Concat(U16Bytes(len), rest[..len], rest[len..]);
  }

  /** A flag is read from any byte but written as 0 or 1: the byte it was read from is
      its layout exactly when it is one of those two. */
  lemma BoolSpells(s: seq<byte>)
    requires ParseBool(s).Some?
    ensures s != [] && ParseBool(s).value.1 == s[1..]
    ensures s == BoolBytes(ParseBool(s).value.0) + ParseBool(s).value.1 <==> s[0] <= 1
  {
    hide BE, FromBE;
    var b := s[0];
    OneByte(b);
    assert s[..1] == [b];
    var v: byte := if b != 0 then 1 else 0;
    OneByte(v);
    assert s == [b] + s[1..];
    if b != v {
      assert ([v] + s[1..])[0] != s[0];
    }
  }

  lemma OneByte(b: byte)
    ensures BE(1, b) == [b] && FromBE([b]) == b
  {
    Widths();
    BERoundTrip(1, b);
    assert BE(1, b) == BE(0, b / 256) + [b % 256];
  }

  /** Any byte is read as a flag. */
  lemma FlagReads(b: byte, t: seq<byte>)
    ensures ParseBool([b] + t) == Some((b != 0, t))
  {
    OneByte(b);
    assert ([b] + t)[..1] == [b] && ([b] + t)[1..] == t;
  }

  /** Conversely, what a number, identity or text reader took off the front is exactly
      the layout of its value. */
  lemma AllSpell()
    ensures forall s {:trigger ParseU32(s)} :: ParseU32(s).Some? ==>
              s == U32Bytes(ParseU32(s).value.0) + ParseU32(s).value.1
    ensures forall s {:trigger ParseU64(s)} :: ParseU64(s).Some? ==>
              s == U64Bytes(ParseU64(s).value.0) + ParseU64(s).value.1
    ensures forall s {:trigger ParseId(s)} :: ParseId(s).Some? ==>
              s == IdBytes(ParseId(s).value.0) + ParseId(s).value.1
    ensures forall s {:trigger ParseText(s)} :: ParseText(s).Some? ==>
              s == TextBytes(ParseText(s).value.0) + ParseText(s).value.1
  {
    hide *;
    forall s | ParseU32(s).Some? ensures s == U32Bytes(ParseU32(s).value.0) + ParseU32(s).value.1 {
      U32Spells(s);
    }
    forall s | ParseU64(s).Some? ensures s == U64Bytes(ParseU64(s).value.0) + ParseU64(s).value.1 {
      U64Spells(s);
    }
    forall s | ParseId(s).Some? ensures s == IdBytes(ParseId(s).value.0) + ParseId(s).value.1 {
      IdSpells(s);
    }
    forall s | ParseText(s).Some? ensures s == TextBytes(ParseText(s).value.0) + ParseText(s).value.1 {
      TextSpells(s);
    }
  }

  lemma EnvelopeGroups(e: Envelope, t: seq<byte>)
    ensures EnvelopeBytes(e) + t ==
            U64Bytes(e.epoch) + (IdBytes(e.boot) + (IdBytes(e.attempt) + (IdBytes(e.dispatch)
            + (U64Bytes(e.attemptGen) + (U64Bytes(e.operationGen) + (U64Bytes(e.failureGen)
            + (U64Bytes(e.recoveryGen) + t)))))))
  {
    Concat8(U64Bytes(e.epoch), IdBytes(e.boot), IdBytes(e.attempt), IdBytes(e.dispatch),
            U64Bytes(e.attemptGen), U64Bytes(e.operationGen), U64Bytes(e.failureGen), U64Bytes(e.recoveryGen), t);
  }

  lemma EnvelopeReads(e: Envelope, t: seq<byte>)
    ensures ParseEnvelope(EnvelopeBytes(e) + t) == Some((e, t))
  {
    hide ParseU64, ParseId, U64Bytes, IdBytes, EnvelopeBytes;
    EnvelopeGroups(e, t);
    AllRead();
  }

  lemma EnvelopeSpells(s: seq<byte>)
    requires ParseEnvelope(s).Some?
    ensures s == EnvelopeBytes(ParseEnvelope(s).value.0) + ParseEnvelope(s).value.1
  {
    hide ParseU64, ParseId, U64Bytes, IdBytes, EnvelopeBytes;
    AllSpell();
    EnvelopeGroups(ParseEnvelope(s).value.0, ParseEnvelope(s).value.1);
  }

  // -------------------------------------------------------------------- writer

  class BinaryWriter {
    var buf: seq<byte>

    constructor ()
      ensures buf == []
    {
      buf := [];
    }

    method U8(v: byte)
      modifies this
      ensures buf == old(buf) + U8Bytes(v)
    {
      buf := buf + [v];
      assert U8Bytes(v) == [v];
    }

    method U16(v: u16)
      modifies this
      ensures buf == old(buf) + U16Bytes(v)
    {
      buf := PutBE(buf, 2, v);
    }

    method U32(v: u32)
      modifies this
      ensures buf == old(buf) + U32Bytes(v)
    {
      buf := PutBE(buf, 4, v);
    }

    method U64(v: u64)
      modifies this
      ensures buf == old(buf) + U64Bytes(v)
    {
      buf := PutBE(buf, 8, v);
    }

    method Append(p: seq<byte>)
      modifies this
      ensures buf == old(buf) + p
    {
      buf := buf + p;
    }

    method Str16(s: Text)
      modifies this
      ensures buf == old(buf) + TextBytes(s)
    {
      if |s| > 0xFFFF {
        U16(0);
        assert TextBytes(s) == U16Bytes(0);
        return;
      }
      U16(|s|);
      Append(s);
      Concat(old(buf), U16Bytes(|s|), s);
    }

    method Id(u: Uuid)
      modifies this
      ensures buf == old(buf) + IdBytes(u)
    {
      Append(IdBytes(u));
    }

    method Bool(b: bool)
      modifies this
      ensures buf == old(buf) + BoolBytes(b)
    {
      U8(if b then 1 else 0);
    }

    method Authority(e: Envelope)
      modifies this
      ensures buf == old(buf) + EnvelopeBytes(e)
    {
      hide U64Bytes, IdBytes;
      U64(e.epoch);
      Id(e.boot);
      Id(e.attempt);
      Id(e.dispatch);
      U64(e.attemptGen);
      U64(e.operationGen);
      U64(e.failureGen);
      U64(e.recoveryGen);
      WriterGroups(old(buf), U64Bytes(e.epoch), IdBytes(e.boot), IdBytes(e.attempt), IdBytes(e.dispatch),
                   U64Bytes(e.attemptGen), U64Bytes(e.operationGen), U64Bytes(e.failureGen), U64Bytes(e.recoveryGen));
    }
  }

  // -------------------------------------------------------------------- reader

  /** A cursor over a buffer. A read past the end clears ok and does not move;
      nothing ever sets ok again. */
  class BinaryReader {
    const data: seq<byte>
    var pos: nat
    var ok: bool

    ghost predicate Valid()
      reads this
    {
      pos <= |data|
    }

    /** What is still ahead of the cursor. */
    ghost function Rest(): seq<byte>
      requires Valid()
      reads this
    {
      data[pos..]
    }

    constructor (data: seq<byte>)
      ensures this.data == data && pos == 0 && ok
      ensures Valid() && Rest() == data
    {
      this.data := data;
      pos := 0;
      ok := true;
    }

    method Need(n: nat) returns (enough: bool)
      requires Valid()
      modifies this`ok
      ensures enough == (|Rest()| >= n)
      ensures ok == (old(ok) && enough)
    {
      enough := pos + n <= |data|;
      if !enough {
        ok := false;
      }
    }

    /** Reads n bytes as one big-endian number, or answers zero. */
    method Int(n: nat) returns (v: nat)
      requires Valid()
      modifies this
      ensures Valid()
      ensures match ParseInt(n, old(Rest()))
              case Some((x, rest)) => v == x && Rest() == rest && ok == old(ok)
              case None => v == 0 && pos == old(pos) && !ok
    {
      var enough := Need(n);
      if !enough {
        return 0;
      }
      assert data[pos..][..n] == data[pos..pos + n];
      v := GetBE(data[pos..pos + n]);
      pos := pos + n;
    }

    method U8() returns (v: byte)
      requires Valid()
      modifies this
      ensures Valid()
      ensures match ParseU8(old(Rest()))
              case Some((x, rest)) => v == x && Rest() == rest && ok == old(ok)
              case None => v == 0 && pos == old(pos) && !ok
    {
      FromWidth(Rest(), 1);
      v := Int(1);
    }

    method U16() returns (v: u16)
      requires Valid()
      modifies this
      ensures Valid()
      ensures match ParseU16(old(Rest()))
              case Some((x, rest)) => v == x && Rest() == rest && ok == old(ok)
              case None => v == 0 && pos == old(pos) && !ok
    {
      FromWidth(Rest(), 2);
      v := Int(2);
    }

    method U32() returns (v: u32)
      requires Valid()
      modifies this
      ensures Valid()
      ensures match ParseU32(old(Rest()))
              case Some((x, rest)) => v == x && Rest() == rest && ok == old(ok)
              case None => v == 0 && pos == old(pos) && !ok
    {
      FromWidth(Rest(), 4);
      v := Int(4);
    }

    method U64() returns (v: u64)
      requires Valid()
      modifies this
      ensures Valid()
      ensures match ParseU64(old(Rest()))
              case Some((x, rest)) => v == x && Rest() == rest && ok == old(ok)
              case None => v == 0 && pos == old(pos) && !ok
    {
      FromWidth(Rest(), 8);
      v := Int(8);
    }

    method Id() returns (u: Uuid)
      requires Valid()
      modifies this
      ensures Valid()
      ensures match ParseId(old(Rest()))
              case Some((x, rest)) => u == x && Rest() == rest && ok == old(ok)
              case None => u == NULL_ID && pos == old(pos) && !ok
    {
      var enough := Need(16);
      if !enough {
        return NULL_ID;
      }
      assert data[pos..][..16] == data[pos..pos + 16];
      u := IdOfBytes(data[pos..pos + 16]);
      pos := pos + 16;
    }

    /** Unlike the fixed-width reads this one also refuses when ok is already clear. */
    method Str16() returns (s: Text)
      requires Valid()
      modifies this
      ensures Valid()
      ensures match ParseText(old(Rest()))
              case Some((x, rest)) => old(ok) ==> s == x && Rest() == rest && ok
              case None => !ok
      ensures !old(ok) ==> !ok
      ensures !ok ==> s == []
    {
      var len := U16();
      if !ok || pos + len > |data| {
        ok := false;
        return [];
      }
      assert data[pos..][..len] == data[pos..pos + len];
      s := data[pos..pos + len];
      pos := pos + len;
    }

    method Authority() returns (e: Envelope)
      requires Valid()
      modifies this
      ensures Valid()
      ensures match ParseEnvelope(old(Rest()))
              case Some((x, rest)) => e == x && Rest() == rest && ok == old(ok)
              case None => !ok
    {
      hide ParseU64, ParseId;
      var epoch := U64();
      var boot := Id();
      var attempt := Id();
      var dispatch := Id();
      var attemptGen := U64();
      var operationGen := U64();
      var failureGen := U64();
      var recoveryGen := U64();
      e := Envelope(epoch, boot, attempt, dispatch, attemptGen, operationGen, failureGen, recoveryGen);
    }
  }
}

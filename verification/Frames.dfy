/** Length-prefixed, checksummed frames. */
module Frames {
  import opened Bytes
  import opened Checksum
  import opened Codec

  const MAGIC: u32 := 0x46464600
  const VERSION: u16 := 1
  const HEADER := 11

  datatype Frame = Frame(kind: byte, payload: seq<byte>)

  /** A payload whose length survives the cast to 32 bits. */
  predicate Sized(f: Frame) {
    |f.payload| < 0x1_0000_0000
  }

  function HeaderBytes(kind: byte, len: u32): (b: seq<byte>)
    ensures |b| == HEADER
  {
    U32Bytes(MAGIC) + U16Bytes(VERSION) + U8Bytes(kind) + U32Bytes(len)
  }

  function FrameBody(f: Frame): (b: seq<byte>)
    ensures |b| == HEADER + |f.payload|
  {
    HeaderBytes(f.kind, |f.payload| % 0x1_0000_0000) + f.payload
  }

  /** encode_frame: the body and then its checksum. */
  function FrameBytes(f: Frame): (b: seq<byte>)
    ensures |b| == HEADER + |f.payload| + 8
  {
    FrameBody(f) + U64Bytes(Fnv(FrameBody(f)))
  }

  /** The kind and payload length a frame header announces. */
  function ParseHeader(s: seq<byte>): Option<((byte, u32), seq<byte>)> {
    var (magic, s) :- ParseU32(s);
    if magic != MAGIC then None else
    var (version, s) :- ParseU16(s);
    if version != VERSION then None else
    var (kind, s) :- ParseU8(s);
    var (len, s) :- ParseU32(s);
    Some(((kind, len), s))
  }

  /** The frame at the front of s and what follows it. */
  function ParseFrame(s: seq<byte>): Option<(Frame, seq<byte>)> {
    var ((kind, len), body) :- ParseHeader(s);
    if len > |body| then None else
    var (stored, rest) :- ParseU64(body[len..]);
    if HEADER + len > |s| || Fnv(s[..HEADER + len]) != stored then None
    else Some((Frame(kind, body[..len]), rest))
  }

  // --------------------------------------------------------------- both ways

  lemma HeaderReads(kind: byte, len: u32, t: seq<byte>)
    ensures ParseHeader(HeaderBytes(kind, len) + t) == Some(((kind, len), t))
  {
    hide ParseU8, ParseU16, ParseU32, U8Bytes, U16Bytes, U32Bytes;
    Concat4(U32Bytes(MAGIC), U16Bytes(VERSION), U8Bytes(kind), U32Bytes(len), t);
    U32Reads(MAGIC, U16Bytes(VERSION) + (U8Bytes(kind) + (U32Bytes(len) + t)));
    U16Reads(VERSION, U8Bytes(kind) + (U32Bytes(len) + t));
    U8Reads(kind, U32Bytes(len) + t);
    U32Reads(len, t);
  }

  lemma FrameReads(f: Frame, t: seq<byte>)
    requires Sized(f)
    ensures ParseFrame(FrameBytes(f) + t) == Some((f, t))
  {
    hide ParseHeader, ParseU64, HeaderBytes, U64Bytes, Fnv;
    var ck, len := Fnv(FrameBody(f)), |f.payload|;
    var s, body := FrameBytes(f) + t, f.payload + (U64Bytes(ck) + t);
    assert FrameBody(f) == HeaderBytes(f.kind, len) + f.payload by {
      BodyIsHeader(f);
    }
    hide FrameBody;
    Concat(FrameBody(f), U64Bytes(ck), t);
    Concat(HeaderBytes(f.kind, len), f.payload, U64Bytes(ck) + t);
    HeaderReads(f.kind, len, body);
    U64Reads(ck, t);
    assert body[len..] == U64Bytes(ck) + t && body[..len] == f.payload;
    assert s[..HEADER + len] == FrameBody(f);
  }

  lemma BodyIsHeader(f: Frame)
    requires Sized(f)
    ensures FrameBody(f) == HeaderBytes(f.kind, |f.payload|) + f.payload
  {
  }

  lemma U8Spells(s: seq<byte>)
    requires ParseU8(s).Some?
    ensures s == U8Bytes(ParseU8(s).value.0) + ParseU8(s).value.1
  {
    IntSpells(1, s);
  }

  lemma U16Spells(s: seq<byte>)
    requires ParseU16(s).Some?
    ensures s == U16Bytes(ParseU16(s).value.0) + ParseU16(s).value.1
  {
    IntSpells(2, s);
  }

  lemma HeaderSpells(s: seq<byte>)
    requires ParseHeader(s).Some?
    ensures var ((kind, len), t) := ParseHeader(s).value;
            s == HeaderBytes(kind, len) + t && t == s[HEADER..]
  {
    hide ParseU8, ParseU16, ParseU32, U8Bytes, U16Bytes, U32Bytes;
    var (_, s1) := ParseU32(s).value;
    U32Spells(s);
    var (_, s2) := ParseU16(s1).value;
    U16Spells(s1);
    var (kind, s3) := ParseU8(s2).value;
    U8Spells(s2);
    var (len, t) := ParseU32(s3).value;
    U32Spells(s3);
    Concat4(U32Bytes(MAGIC), U16Bytes(VERSION), U8Bytes(kind), U32Bytes(len), t);
  }

  /** A frame is read only where the bytes are exactly that frame's encoding. */
  lemma FrameSpells(s: seq<byte>)
    requires ParseFrame(s).Some?
    ensures var (f, rest) := ParseFrame(s).value;
            s == FrameBytes(f) + rest && Sized(f)
  {
    hide ParseHeader, ParseU64, HeaderBytes, U64Bytes, Fnv;
    var ((kind, len), body) := ParseHeader(s).value;
    HeaderSpells(s);
    var (stored, rest) := ParseU64(body[len..]).value;
    U64Spells(body[len..]);
    var f := Frame(kind, body[..len]);
    BodyIsHeader(f);
    hide FrameBody;
    assert body == f.payload + body[len..];
    Concat(HeaderBytes(kind, len), f.payload, body[len..]);
    assert s[..HEADER + len] == FrameBody(f);
    Concat(FrameBody(f), U64Bytes(stored), rest);
  }

  // ------------------------------------------------------ truncation, corruption

  /** The length field determines the payload length. */
  lemma LengthField(f: Frame, g: Frame)
    requires Sized(f) && Sized(g)
    requires FrameBytes(f)[7..11] == FrameBytes(g)[7..11]
    ensures |f.payload| == |g.payload|
  {
    hide U8Bytes, U16Bytes, U32Bytes, U64Bytes, Fnv;
    assert FrameBytes(f)[7..11] == U32Bytes(|f.payload|);
    assert FrameBytes(g)[7..11] == U32Bytes(|g.payload|);
    U32Reads(|f.payload|, []);
    U32Reads(|g.payload|, []);
  }

  /** No proper prefix of a frame is read as a frame. */
  lemma TruncatedFrameRefused(f: Frame, m: nat)
    requires Sized(f) && m < |FrameBytes(f)|
    ensures ParseFrame(FrameBytes(f)[..m]) == None
  {
    hide FrameBytes, ParseFrame;
    var s := FrameBytes(f)[..m];
    if ParseFrame(s).Some? {
      FrameSpells(s);
      var (g, rest) := ParseFrame(s).value;
      assert FrameBytes(g)[7..11] == s[7..11] == FrameBytes(f)[7..11];
      LengthField(f, g);
    }
  }

  lemma BodyTail(f: Frame, g: Frame)
    requires |f.payload| == |g.payload|
    ensures var n := HEADER + |f.payload|;
            && FrameBytes(f)[..n] == FrameBody(f) && FrameBytes(f)[n..] == U64Bytes(Fnv(FrameBody(f)))
            && FrameBytes(g)[..n] == FrameBody(g) && FrameBytes(g)[n..] == U64Bytes(Fnv(FrameBody(g)))
  {
    hide FrameBody, U64Bytes, Fnv;
  }

  lemma StoredChecksum(h: u64)
    ensures FromBE(U64Bytes(h)) == h
  {
    Widths();
    BERoundTrip(8, h);
  }

  /** Body and checksum cannot be changed together within two adjacent bytes. */
  lemma BoundaryBurstDetected(b: seq<byte>, c: seq<byte>)
    requires |b| == |c| > 0 && b[..|b| - 1] == c[..|b| - 1]
    requires U64Bytes(Fnv(b))[1..] == U64Bytes(Fnv(c))[1..]
    ensures b == c
  {
    var n := |b| - 1;
    var h := Fnv(b[..n]);
    hide Mix, BE, FromBE;
    var p, q := U64Bytes(Fnv(b)), U64Bytes(Fnv(c));
    FromBELeading(p, q);
    StoredChecksum(Fnv(b));
    StoredChecksum(Fnv(c));
    Widths();
    if b[n] != c[n] {
      var e: int := q[0] as int - p[0] as int;
      LastByteSpreads(h, b[n], c[n], e);
    }
    assert b == b[..n] + [b[n]] && c == c[..n] + [c[n]];
  }

  /** Two frames of one length that differ within two adjacent bytes do not differ. */
  lemma NearbyFramesEqual(f: Frame, g: Frame, j: nat)
    requires |f.payload| == |g.payload| && Burst(FrameBytes(f), FrameBytes(g), j)
    ensures FrameBytes(f) == FrameBytes(g)
  {
    hide FrameBytes, FrameBody, U64Bytes, Fnv;
    var n := HEADER + |f.payload|;
    var p, q := FrameBytes(f), FrameBytes(g);
    BodyTail(f, g);
    var b, c := FrameBody(f), FrameBody(g);
    assert forall k :: 0 <= k < n ==> b[k] == p[k] && c[k] == q[k];
    assert forall k :: 0 <= k < 8 ==> p[n..][k] == p[n + k] && q[n..][k] == q[n + k];
    assert j + 1 < n ==> p[n..] == q[n..];
    assert j >= n ==> b == c;
    if p[n..] == q[n..] {
      assert Burst(b, c, j);
      StoredChecksum(Fnv(b));
      StoredChecksum(Fnv(c));
      if b != c {
        BurstDetected(b, c, j);
      }
    } else if j + 1 == n {
      assert b[..n - 1] == c[..n - 1];
      assert p[n..][1..] == q[n..][1..];
      BoundaryBurstDetected(b, c);
    }
    assert p == p[..n] + p[n..] && q == q[..n] + q[n..];
  }

  /** Corruption detection for a frame in any surroundings: a change confined to two
      adjacent bytes, not touching the length field, is never read as a frame. */
  lemma CorruptFrameRefused(f: Frame, bad: seq<byte>, j: nat, post: seq<byte>)
    requires Sized(f) && Burst(FrameBytes(f), bad, j) && bad != FrameBytes(f)
    requires bad[7..11] == FrameBytes(f)[7..11]
    ensures ParseFrame(bad + post) == None
  {
    hide FrameBytes, ParseFrame;
    if ParseFrame(bad + post).Some? {
      FrameSpells(bad + post);
      var (g, rest) := ParseFrame(bad + post).value;
      assert FrameBytes(g)[7..11] == (bad + post)[7..11] == bad[7..11];
      LengthField(f, g);
      assert FrameBytes(g) == (bad + post)[..|bad|] == bad;
      NearbyFramesEqual(f, g, j);
    }
  }

  // ---------------------------------------------------------------- the methods

  method EncodeFrame(kind: byte, payload: seq<byte>) returns (out: seq<byte>)
    ensures out == FrameBytes(Frame(kind, payload))
  {
    hide U8Bytes, U16Bytes, U32Bytes, U64Bytes, Fnv;
    var w := new BinaryWriter();
    w.U32(MAGIC);
    w.U16(VERSION);
    w.U8(kind);
    w.U32(|payload| % 0x1_0000_0000);
    w.Append(payload);
    var body := w.buf;
    assert body == FrameBody(Frame(kind, payload)) by {
      assert [] + U32Bytes(MAGIC) == U32Bytes(MAGIC);
    }
    var ck := Fnv1a64(body);
    var result := new BinaryWriter();
    result.Append(body);
    result.U64(ck);
    assert [] + body == body;
    out := result.buf;
  }

  /** The header reads of decode_frame and recv_frame. */
  method DecodeHeader(r: BinaryReader) returns (good: bool, kind: byte, len: u32)
    requires r.Valid() && r.ok
    modifies r
    ensures r.Valid()
    ensures good == ParseHeader(old(r.Rest())).Some?
    ensures good ==> ParseHeader(old(r.Rest())) == Some(((kind, len), r.Rest())) && r.pos == old(r.pos) + HEADER
  {
    hide ParseU8, ParseU16, ParseU32;
    ghost var s := r.Rest();
    good, kind, len := false, 0, 0;
    var magic := r.U32();
    if !r.ok || magic != MAGIC {
      return;
    }
    var version := r.U16();
    if !r.ok || version != VERSION {
      return;
    }
    kind := r.U8();
    len := r.U32();
    good := r.ok;
    if good {
      HeaderSpells(s);
    }
  }

  /** What is left to check once the header at an offset has been read. */
  lemma FrameAt(data: seq<byte>, offset: nat, kind: byte, len: u32)
    requires offset + HEADER <= |data|
    requires ParseHeader(data[offset..]) == Some(((kind, len), data[offset + HEADER..]))
    ensures var start := offset + HEADER;
            ParseFrame(data[offset..]) ==
            if start + len + 8 > |data|
               || Fnv(data[offset..start + len]) != FromBE(data[start + len..start + len + 8]) then None
            else Some((Frame(kind, data[start..start + len]), data[start + len + 8..]))
  {
    hide ParseHeader, FromBE, Fnv;
    var start := offset + HEADER;
    var body := data[start..];
    if len <= |body| {
      assert body[len..] == data[start + len..];
      assert body[..len] == data[start..start + len];
      assert data[offset..][..HEADER + len] == data[offset..start + len];
    }
    if start + len + 8 <= |data| {
      assert data[start + len..][..8] == data[start + len..start + len + 8];
      assert data[start + len..][8..] == data[start + len + 8..];
    }
  }

  /** The part of decode_frame after its header: bounds, payload and checksum. */
  method DecodeBody(data: seq<byte>, offset: nat, kind: byte, len: u32) returns (ok: bool, f: Frame, next: nat)
    requires offset + HEADER <= |data|
    requires ParseHeader(data[offset..]) == Some(((kind, len), data[offset + HEADER..]))
    ensures ok == ParseFrame(data[offset..]).Some?
    ensures ok ==> next <= |data| && next == offset + HEADER + |f.payload| + 8
    ensures ok ==> ParseFrame(data[offset..]) == Some((f, data[next..]))
  {
    hide ParseFrame, ParseHeader, FromBE, Fnv;
    ok, f, next := false, Frame(0, []), 0;
    FrameAt(data, offset, kind, len);
    var start := offset + HEADER;
    if start + len + 8 > |data| {
      return;
    }
    var stored := GetBE(data[start + len..start + len + 8]);
    var ck := Fnv1a64(data[offset..start + len]);
    if ck != stored {
      return;
    }
    ok, f, next := true, Frame(kind, data[start..start + len]), start + len + 8;
  }

  method DecodeFrame(data: seq<byte>, offset: nat) returns (ok: bool, f: Frame, next: nat)
    ensures ok == (offset <= |data| && ParseFrame(data[offset..]).Some?)
    ensures ok ==> next <= |data| && next == offset + HEADER + |f.payload| + 8
    ensures ok ==> ParseFrame(data[offset..]) == Some((f, data[next..]))
  {
    hide ParseHeader, HeaderBytes, FromBE, Fnv;
    ok, f, next := false, Frame(0, []), 0;
    if offset + HEADER > |data| {
      if offset <= |data| {
        ShortRefused(data[offset..]);
      }
      return;
    }
    var r := new BinaryReader(data[offset..]);
    var good, kind, len := DecodeHeader(r);
    if !good || len > |r.data| - r.pos {
      return;
    }
    HeaderAdvances(data, offset);
    ok, f, next := DecodeBody(data, offset, kind, len);
  }

  lemma ShortRefused(s: seq<byte>)
    requires |s| < HEADER
    ensures ParseFrame(s) == None
  {
    if ParseHeader(s).Some? {
      HeaderSpells(s);
    }
  }

  lemma HeaderAdvances(data: seq<byte>, offset: nat)
    requires offset + HEADER <= |data| && ParseHeader(data[offset..]).Some?
    ensures ParseHeader(data[offset..]).value.1 == data[offset + HEADER..]
  {
    HeaderSpells(data[offset..]);
    assert data[offset..][HEADER..] == data[offset + HEADER..];
  }
}

/** The formats byte by byte: which field stands where, in which order of bytes, under
    which constants. Files and messages of other processes depend on it. */
module Format {
  import opened Bytes
  import opened Ids
  import opened Authority
  import opened Checksum
  import opened Codec
  import opened FailureRecords
  import opened Frames
  import opened Snapshot
  import opened SnapshotPayloads
  import opened SnapshotLaws
  import opened Wire
  import Registry
  import Idempotency
  import Ownership

  /** The number that the bytes from a place on spell, most significant first. */
  function Number(s: seq<byte>, at: nat, size: nat): nat
    requires at + size <= |s|
  {
    FromBE(s[at..at + size])
  }

  /** Numbers of 32 and 64 bits and identities are spelled most significant byte first. */
  lemma Spelled()
    ensures forall x: u16 {:trigger U16Bytes(x)} :: FromBE(U16Bytes(x)) == x
    ensures forall x: u32 {:trigger U32Bytes(x)} :: FromBE(U32Bytes(x)) == x
    ensures forall x: u64 {:trigger U64Bytes(x)} :: FromBE(U64Bytes(x)) == x
    ensures forall u: Uuid {:trigger IdBytes(u)} :: FromBE(IdBytes(u)) == u
  {
    Widths();
    IdWidth();
    forall x: u16 ensures FromBE(U16Bytes(x)) == x {
      BERoundTrip(2, x);
    }
    forall x: u32 ensures FromBE(U32Bytes(x)) == x {
      BERoundTrip(4, x);
    }
    forall x: u64 ensures FromBE(U64Bytes(x)) == x {
      BERoundTrip(8, x);
    }
    forall u: Uuid ensures FromBE(IdBytes(u)) == u {
      BERoundTrip(16, u);
    }
  }

  /** The four bytes of a 32-bit number, the most significant one first. */
  lemma BigEndian(x: u32)
    ensures U32Bytes(x) == [x / 0x100_0000, x / 0x1_0000 % 0x100, x / 0x100 % 0x100, x % 0x100]
    ensures FromBE([x / 0x100_0000, x / 0x1_0000 % 0x100, x / 0x100 % 0x100, x % 0x100]) == x
  {
    Widths();
    BERoundTrip(4, x);
    assert BE(4, x) == BE(3, x / 256) + [x % 256];
    assert BE(3, x / 256) == BE(2, x / 256 / 256) + [x / 256 % 256];
    assert BE(2, x / 256 / 256) == BE(1, x / 256 / 256 / 256) + [x / 256 / 256 % 256];
    assert BE(1, x / 256 / 256 / 256) == BE(0, x / 256 / 256 / 256 / 256) + [x / 256 / 256 / 256 % 256];
  }

  /** A frame's header: "FFF" and a zero, version 1, the kind, the payload's length. */
  lemma HeaderPlaces(kind: byte, len: u32)
    ensures HeaderBytes(kind, len) ==
            [0x46, 0x46, 0x46, 0x00, 0x00, 0x01, kind]
            + [len / 0x100_0000, len / 0x1_0000 % 0x100, len / 0x100 % 0x100, len % 0x100]
  {
    BigEndian(MAGIC);
    BigEndian(len);
    OneByte(kind);
    VersionBytes();
    hide U32Bytes, U16Bytes, BE;
  }

  lemma VersionBytes()
    ensures U16Bytes(VERSION) == [0x00, 0x01]
  {
    assert BE(2, 1) == BE(1, 0) + [1];
    assert BE(1, 0) == BE(0, 0) + [0];
  }

  /** The checksum of nothing and of "a". */
  lemma ChecksumVectors()
    ensures Fnv([]) == 1469598103934665603
    ensures Fnv([97]) == 4953267810257967366
  {
    FirstXor();
    hide Xor;
    assert [97][..0] == [];
    assert Fnv([97]) == Mix(Fnv([]), 97);
    assert 1469598103934665698 * 1099511628211 == 87594872982 * 0x1_0000_0000_0000_0000 + 4953267810257967366;
  }

  lemma FirstXor()
    ensures Xor(1469598103934665603, 97) == 1469598103934665698
  {
    XorZero(11481235186989575);
    assert Xor(22962470373979150, 1) == 22962470373979151;
    assert Xor(45924940747958300, 3) == 45924940747958303;
    assert Xor(91849881495916600, 6) == 91849881495916606;
    assert Xor(183699762991833200, 12) == 183699762991833212;
    assert Xor(367399525983666400, 24) == 367399525983666424;
    assert Xor(734799051967332801, 48) == 734799051967332849;
    assert Xor(1469598103934665603, 97) == 1469598103934665698;
  }

  // ------------------------------------------------------------- field by field

  /** epoch, boot, attempt, dispatch, then the four generations. */
  lemma EnvelopePlaces(e: Envelope)
    ensures var b := EnvelopeBytes(e);
            && Number(b, 0, 8) == e.epoch && Number(b, 8, 16) == e.boot
            && Number(b, 24, 16) == e.attempt && Number(b, 40, 16) == e.dispatch
            && Number(b, 56, 8) == e.attemptGen && Number(b, 64, 8) == e.operationGen
            && Number(b, 72, 8) == e.failureGen && Number(b, 80, 8) == e.recoveryGen
  {
    hide U64Bytes, IdBytes, FromBE;
    Spelled();
    var b := EnvelopeBytes(e);
    assert b[0..8] == U64Bytes(e.epoch) && b[8..24] == IdBytes(e.boot);
    assert b[24..40] == IdBytes(e.attempt) && b[40..56] == IdBytes(e.dispatch);
    assert b[56..64] == U64Bytes(e.attemptGen) && b[64..72] == U64Bytes(e.operationGen);
    assert b[72..80] == U64Bytes(e.failureGen) && b[80..88] == U64Bytes(e.recoveryGen);
  }

  /** A text stands behind its length in two bytes. */
  lemma TextPlaces(t: Text)
    requires |t| <= 0xFFFF
    ensures |TextBytes(t)| == 2 + |t| && Number(TextBytes(t), 0, 2) == |t| && TextBytes(t)[2..] == t
  {
    hide U16Bytes, FromBE;
    Spelled();
    assert TextBytes(t)[0..2] == U16Bytes(|t|);
  }

  /** failure, operation, request, workload, attempt, dispatch, worker, node, device. */
  lemma IdentityPlaces(i: Identity)
    ensures var b := IdentityBytes(i);
            && Number(b, 0, 16) == i.failureId && Number(b, 16, 16) == i.operation && Number(b, 32, 16) == i.request
            && Number(b, 48, 16) == i.workload && Number(b, 64, 16) == i.attempt && Number(b, 80, 16) == i.dispatch
            && Number(b, 96, 16) == i.worker && Number(b, 112, 16) == i.node && Number(b, 128, 16) == i.device
  {
    hide IdBytes, FromBE;
    Spelled();
    var b := IdentityBytes(i);
    assert b[0..16] == IdBytes(i.failureId) && b[16..32] == IdBytes(i.operation) && b[32..48] == IdBytes(i.request);
    assert b[48..64] == IdBytes(i.workload) && b[64..80] == IdBytes(i.attempt) && b[80..96] == IdBytes(i.dispatch);
    assert b[96..112] == IdBytes(i.worker) && b[112..128] == IdBytes(i.node) && b[128..144] == IdBytes(i.device);
  }

  /** class, origin, code, the two texts, phase. */
  lemma CausePlaces(c: Cause)
    requires |c.summary| <= 0xFFFF && |c.reason| <= 0xFFFF
    ensures var b := CauseBytes(c);
            var n, m := |c.summary|, |c.reason|;
            && |b| == 20 + n + m
            && Number(b, 0, 4) == c.failureClass && Number(b, 4, 4) == c.origin && Number(b, 8, 4) == c.code
            && Number(b, 12, 2) == n && b[14..14 + n] == c.summary
            && Number(b, 14 + n, 2) == m && b[16 + n..16 + n + m] == c.reason
            && Number(b, 16 + n + m, 4) == c.phase
  {
    hide CauseBytes, U32Bytes, TextBytes, FromBE;
    Spelled();
    var n, m := |c.summary|, |c.reason|;
    TextPlaces(c.summary);
    TextPlaces(c.reason);
    CauseParts(c, n, m);
    var b := CauseBytes(c);
    assert b[12..14] == TextBytes(c.summary)[0..2] && b[14..14 + n] == TextBytes(c.summary)[2..];
    assert b[14 + n..16 + n] == TextBytes(c.reason)[0..2] && b[16 + n..16 + n + m] == TextBytes(c.reason)[2..];
  }

  lemma CauseParts(c: Cause, n: nat, m: nat)
    requires |TextBytes(c.summary)| == 2 + n && |TextBytes(c.reason)| == 2 + m
    ensures var b := CauseBytes(c);
            && |b| == 20 + n + m
            && b[0..4] == U32Bytes(c.failureClass) && b[4..8] == U32Bytes(c.origin) && b[8..12] == U32Bytes(c.code)
            && b[12..14 + n] == TextBytes(c.summary) && b[14 + n..16 + n + m] == TextBytes(c.reason)
            && b[16 + n + m..20 + n + m] == U32Bytes(c.phase)
  {
    hide CauseBytes, U32Bytes, TextBytes;
    CauseGroups(c, []);
    assert CauseBytes(c) + [] == CauseBytes(c) && U32Bytes(c.phase) + [] == U32Bytes(c.phase);
    ThreeParts(CauseBytes(c), 0, U32Bytes(c.failureClass), U32Bytes(c.origin), U32Bytes(c.code),
               TextBytes(c.summary) + (TextBytes(c.reason) + U32Bytes(c.phase)));
    ThreeParts(CauseBytes(c), 12, TextBytes(c.summary), TextBytes(c.reason), U32Bytes(c.phase), []);
  }

  lemma ThreeParts(s: seq<byte>, at: nat, x: seq<byte>, y: seq<byte>, z: seq<byte>, t: seq<byte>)
    requires at <= |s| && (s[at..] == x + (y + (z + t)) || (t == [] && s[at..] == x + (y + z)))
    ensures var i := at + |x|;
            var j := i + |y|;
            var k := j + |z|;
            k <= |s| && s[at..i] == x && s[i..j] == y && s[j..k] == z && s[k..] == t
  {
    assert t == [] ==> z + t == z;
    Skip(s, at, x, y + (z + t));
    Skip(s, at + |x|, y, z + t);
    Skip(s, at + |x| + |y|, z, t);
  }

  /** timestamp, completion, side effects, how many unknown. */
  lemma EffectsPlaces(e: Effects)
    ensures var b := EffectsBytes(e);
            && Number(b, 0, 8) == e.timestamp && Number(b, 8, 4) == e.completion
            && Number(b, 12, 4) == e.sideEffects && Number(b, 16, 4) == e.unknownSideEffects
  {
    hide U32Bytes, U64Bytes, FromBE;
    Spelled();
    var b := EffectsBytes(e);
    assert b[0..8] == U64Bytes(e.timestamp) && b[8..12] == U32Bytes(e.completion);
    assert b[12..16] == U32Bytes(e.sideEffects) && b[16..20] == U32Bytes(e.unknownSideEffects);
  }

  /** retryability, rollback, compensation, terminality, recovery owner, provenance. */
  lemma HandlingPlaces(h: Handling)
    ensures var b := HandlingBytes(h);
            && Number(b, 0, 4) == h.retryability && Number(b, 4, 4) == h.rollback && Number(b, 8, 4) == h.compensation
            && Number(b, 12, 4) == h.terminality && Number(b, 16, 4) == h.recoveryOwner
            && Number(b, 20, 4) == h.provenance
  {
    hide U32Bytes, FromBE;
    Spelled();
    var b := HandlingBytes(h);
    assert b[0..4] == U32Bytes(h.retryability) && b[4..8] == U32Bytes(h.rollback) && b[8..12] == U32Bytes(h.compensation);
    assert b[12..16] == U32Bytes(h.terminality) && b[16..20] == U32Bytes(h.recoveryOwner);
    assert b[20..24] == U32Bytes(h.provenance);
  }

  /** A failure record: identity, cause, effects, authority, handling, the causal parent,
      and the dependencies behind their number. */
  lemma RecordPlaces(r: FailureRecord)
    requires ShortRecord(r) && |r.dependencies| < 0x1_0000_0000
    ensures var b := RecordBytes(r);
            var n := 164 + |r.cause.summary| + |r.cause.reason|;
            && |b| == n + 152 + 16 * |r.dependencies|
            && b[..144] == IdentityBytes(r.ids) && b[144..n] == CauseBytes(r.cause)
            && b[n..n + 20] == EffectsBytes(r.effects) && b[n + 20..n + 108] == EnvelopeBytes(r.authority)
            && b[n + 108..n + 132] == HandlingBytes(r.handling)
            && Number(b, n + 132, 16) == r.causalParent && Number(b, n + 148, 4) == |r.dependencies|
            && forall i :: 0 <= i < |r.dependencies| ==> Number(b, n + 152 + 16 * i, 16) == r.dependencies[i]
  {
    hide IdentityBytes, CauseBytes, EffectsBytes, EnvelopeBytes, HandlingBytes, IdsBytes, IdBytes, U32Bytes, FromBE;
    Spelled();
    CausePlaces(r.cause);
    var b := RecordBytes(r);
    var n := 164 + |r.cause.summary| + |r.cause.reason|;
    assert |CauseBytes(r.cause)| == n - 144;
    RecordTail(r, n);
    forall i | 0 <= i < |r.dependencies|
      ensures b[n + 152 + 16 * i..n + 152 + 16 * i + 16] == IdBytes(r.dependencies[i])
    {
      IdPlace(r.dependencies, i);
      assert b[n + 152..] == IdsBytes(r.dependencies);
    }
  }

  lemma RecordTail(r: FailureRecord, n: nat)
    requires |CauseBytes(r.cause)| == n - 144 >= 0 && |r.dependencies| < 0x1_0000_0000
    ensures var b := RecordBytes(r);
            && |b| == n + 152 + 16 * |r.dependencies|
            && b[..144] == IdentityBytes(r.ids) && b[144..n] == CauseBytes(r.cause)
            && b[n..n + 20] == EffectsBytes(r.effects) && b[n + 20..n + 108] == EnvelopeBytes(r.authority)
            && b[n + 108..n + 132] == HandlingBytes(r.handling)
            && b[n + 132..n + 148] == IdBytes(r.causalParent)
            && b[n + 148..n + 152] == U32Bytes(|r.dependencies|)
            && b[n + 152..] == IdsBytes(r.dependencies)
  {
    hide IdentityBytes, CauseBytes, EffectsBytes, EnvelopeBytes, HandlingBytes, IdsBytes, IdBytes, U32Bytes;
    hide RecordBytes;
    var b := RecordBytes(r);
    var t7 := IdsBytes(r.dependencies);
    var t6 := U32Bytes(|r.dependencies|) + t7;
    var t5 := IdBytes(r.causalParent) + t6;
    var t4 := HandlingBytes(r.handling) + t5;
    var t3 := EnvelopeBytes(r.authority) + t4;
    var t2 := EffectsBytes(r.effects) + t3;
    var t1 := CauseBytes(r.cause) + t2;
    RecordGroups(r, []);
    assert b + [] == b && t7 + [] == t7;
    Skip(b, 0, IdentityBytes(r.ids), t1);
    Skip(b, 144, CauseBytes(r.cause), t2);
    Skip(b, n, EffectsBytes(r.effects), t3);
    Skip(b, n + 20, EnvelopeBytes(r.authority), t4);
    Skip(b, n + 108, HandlingBytes(r.handling), t5);
    Skip(b, n + 132, IdBytes(r.causalParent), t6);
    Skip(b, n + 148, U32Bytes(|r.dependencies|), t7);
  }

  /** What stands at a place, and what behind it. */
  lemma Skip(s: seq<byte>, at: nat, x: seq<byte>, t: seq<byte>)
    requires at <= |s| && s[at..] == x + t
    ensures at + |x| <= |s| && s[at..at + |x|] == x && s[at + |x|..] == t
  {
    assert |s[at..]| == |x| + |t|;
    assert s[at..][..|x|] == s[at..at + |x|] && s[at..][|x|..] == s[at + |x|..];
  }

  lemma {:induction false} IdPlace(ids: seq<Uuid>, i: nat)
    requires i < |ids|
    ensures IdsBytes(ids)[16 * i..16 * i + 16] == IdBytes(ids[i])
  {
    hide IdBytes;
    if i > 0 {
      IdPlace(ids[1..], i - 1);
      var rest := IdsBytes(ids[1..]);
      assert IdsBytes(ids)[16..] == rest;
      assert IdsBytes(ids)[16 * i..16 * i + 16] == rest[16 * (i - 1)..16 * (i - 1) + 16];
    }
  }

  /** An operation: its id, state, attempts, whether recorded, the outcome, whether
      idempotent, its key, the authority and the terminal envelope. */
  lemma OpPlaces(op: Uuid, rt: Registry.Runtime)
    requires |rt.outcome| <= 0xFFFF
    ensures var b := OpBytes(op, rt);
            var n := |rt.outcome|;
            && |b| == 220 + n
            && Number(b, 0, 16) == op && Number(b, 16, 4) == rt.state && Number(b, 20, 4) == rt.attempts
            && b[24] == (if rt.recorded then 1 else 0)
            && Number(b, 25, 2) == n && b[27..27 + n] == rt.outcome
            && b[27 + n] == (if rt.idempotent then 1 else 0) && Number(b, 28 + n, 16) == rt.idemKey
            && b[44 + n..132 + n] == EnvelopeBytes(rt.authority) && b[132 + n..] == EnvelopeBytes(rt.terminal)
  {
    hide U32Bytes, IdBytes, BoolBytes, TextBytes, EnvelopeBytes, FromBE, BE;
    Spelled();
    FlagByteIs(rt.recorded);
    FlagByteIs(rt.idempotent);
    TextPlaces(rt.outcome);
    OpParts(op, rt, |rt.outcome|);
    var b, n, t := OpBytes(op, rt), |rt.outcome|, TextBytes(rt.outcome);
    assert b[24] == b[24..25][0] && b[27 + n] == b[27 + n..28 + n][0];
    assert b[25..27] == t[0..2] && b[27..27 + n] == t[2..];
  }

  lemma FlagByteIs(v: bool)
    ensures BoolBytes(v) == [if v then 1 else 0]
  {
    OneByte(if v then 1 else 0);
  }

  lemma OpParts(op: Uuid, rt: Registry.Runtime, n: nat)
    requires |TextBytes(rt.outcome)| == 2 + n
    ensures var b := OpBytes(op, rt);
            && |b| == 220 + n
            && b[0..16] == IdBytes(op) && b[16..20] == U32Bytes(rt.state) && b[20..24] == U32Bytes(rt.attempts)
            && b[24..25] == BoolBytes(rt.recorded) && b[25..27 + n] == TextBytes(rt.outcome)
            && b[27 + n..28 + n] == BoolBytes(rt.idempotent) && b[28 + n..44 + n] == IdBytes(rt.idemKey)
            && b[44 + n..132 + n] == EnvelopeBytes(rt.authority) && b[132 + n..] == EnvelopeBytes(rt.terminal)
  {
    hide U32Bytes, IdBytes, BoolBytes, TextBytes, EnvelopeBytes;
  }

  /** An idempotency entry: operation, key, hash, state, metadata. */
  lemma ViewPlaces(v: Idempotency.EntryView)
    requires |v.metadata| <= 0xFFFF
    ensures var b := ViewBytes(v);
            && |b| == 46 + |v.metadata|
            && Number(b, 0, 16) == v.key.op && Number(b, 16, 16) == v.key.key && Number(b, 32, 8) == v.hash
            && Number(b, 40, 4) == v.state && Number(b, 44, 2) == |v.metadata| && b[46..] == v.metadata
  {
    hide U32Bytes, U64Bytes, IdBytes, TextBytes, FromBE;
    Spelled();
    TextPlaces(v.metadata);
    var b, t := ViewBytes(v), TextBytes(v.metadata);
    assert b[0..16] == IdBytes(v.key.op) && b[16..32] == IdBytes(v.key.key) && b[32..40] == U64Bytes(v.hash);
    assert b[40..44] == U32Bytes(v.state) && b[44..] == t;
    assert b[44..46] == t[0..2] && b[46..] == t[2..];
  }

  /** The ownership: owner, generation, boot. */
  lemma HolderPlaces(h: Ownership.Holder)
    ensures var b := HolderBytes(h);
            Number(b, 0, 4) == h.owner && Number(b, 4, 8) == h.generation && Number(b, 12, 16) == h.boot
  {
    hide U32Bytes, U64Bytes, IdBytes, FromBE;
    Spelled();
    var b := HolderBytes(h);
    assert b[0..4] == U32Bytes(h.owner) && b[4..12] == U64Bytes(h.generation) && b[12..28] == IdBytes(h.boot);
  }

  /** The snapshot's header: the magic number and version once more, then how many
      failures, operations and idempotency entries follow. */
  lemma CountsPlaces(fails: u32, ops: u32, ids: u32)
    ensures var b := CountsBytes(fails, ops, ids);
            && b[..6] == [0x46, 0x46, 0x46, 0x00, 0x00, 0x01]
            && Number(b, 6, 4) == fails && Number(b, 10, 4) == ops && Number(b, 14, 4) == ids
  {
    BigEndian(MAGIC);
    VersionBytes();
    hide U32Bytes, U16Bytes, FromBE;
    Spelled();
    var b := CountsBytes(fails, ops, ids);
    assert b[6..10] == U32Bytes(fails) && b[10..14] == U32Bytes(ops) && b[14..18] == U32Bytes(ids);
  }

  /** A message: type, operation, attempt, worker, boot, authority, flag, text, number. */
  lemma WirePlaces(m: WireMessage)
    requires |m.text| <= 0xFFFF
    ensures var b := WireBytes(m);
            var n := |m.text|;
            && |b| == 167 + n
            && Number(b, 0, 4) == m.kind && Number(b, 4, 16) == m.op && Number(b, 20, 16) == m.attempt
            && Number(b, 36, 16) == m.worker && Number(b, 52, 16) == m.boot
            && b[68..156] == EnvelopeBytes(m.authority) && b[156] == (if m.flag then 1 else 0)
            && Number(b, 157, 2) == n && b[159..159 + n] == m.text && Number(b, 159 + n, 8) == m.number
  {
    hide U32Bytes, U64Bytes, IdBytes, BoolBytes, TextBytes, EnvelopeBytes, FromBE, BE;
    Spelled();
    FlagByteIs(m.flag);
    TextPlaces(m.text);
    WireParts(m, |m.text|);
    var b, n, t := WireBytes(m), |m.text|, TextBytes(m.text);
    assert b[156] == b[156..157][0];
    assert b[157..159] == t[0..2] && b[159..159 + n] == t[2..];
  }

  lemma WireParts(m: WireMessage, n: nat)
    requires |TextBytes(m.text)| == 2 + n
    ensures var b := WireBytes(m);
            && |b| == 167 + n
            && b[0..4] == U32Bytes(m.kind) && b[4..20] == IdBytes(m.op) && b[20..36] == IdBytes(m.attempt)
            && b[36..52] == IdBytes(m.worker) && b[52..68] == IdBytes(m.boot)
            && b[68..156] == EnvelopeBytes(m.authority) && b[156..157] == BoolBytes(m.flag)
            && b[157..159 + n] == TextBytes(m.text) && b[159 + n..167 + n] == U64Bytes(m.number)
  {
    hide U32Bytes, U64Bytes, IdBytes, BoolBytes, TextBytes, EnvelopeBytes;
  }

  // -------------------------------------------------------------------- bounds

  /** The kinds of a snapshot's frames, in the order in which they are written: one
      header, the failures, the operations, the idempotency entries, the ownership. */
  lemma SnapshotKinds(v: StoreValue, o: Orders)
    requires Enumerates(o, v)
    ensures var fs := TableFrames(v, o) + [OwnerFrame(v)];
            var f, p, i := |v.failures|, |v.ops|, |v.idem|;
            && SnapshotBytes(v, o) == ConcatFrames(fs) && |fs| == f + p + i + 2
            && fs[0].kind == 0
            && (forall n :: 1 <= n < 1 + f ==> fs[n].kind == 1)
            && (forall n :: 1 + f <= n < 1 + f + p ==> fs[n].kind == 2)
            && (forall n :: 1 + f + p <= n < 1 + f + p + i ==> fs[n].kind == 3)
            && fs[1 + f + p + i].kind == 4
  {
    hide CountsBytes, HolderBytes, FailureFrames, OpFrames, IdemFrames, ConcatFrames, Idempotency.Enumerates;
    OrderSizes(v, o);
    FailureKinds(v.failures, o.failures);
    OpKinds(v.ops, o.ops);
    IdemKinds(v.idem, o.idem);
  }

  /** 23 failure classes, 11 origins, 10 phases; any other number is refused. */
  lemma CauseBounds(failureClass: u32, origin: u32, code: u32, summary: Text, reason: Text, phase: u32, t: seq<byte>)
    ensures ParseCause(U32Bytes(failureClass) + (U32Bytes(origin) + (U32Bytes(code)
                       + (TextBytes(summary) + (TextBytes(reason) + (U32Bytes(phase) + t)))))).Some?
            <==> failureClass < 23 && origin < 11 && phase < 10
  {
    hide ParseU32, ParseText, U32Bytes, TextBytes, Clip;
    AllRead();
  }

  /** 4 kinds of completion, 5 of side effects. */
  lemma EffectsBounds(timestamp: u64, completion: u32, sideEffects: u32, unknown: u32, t: seq<byte>)
    ensures ParseEffects(U64Bytes(timestamp) + (U32Bytes(completion) + (U32Bytes(sideEffects)
                         + (U32Bytes(unknown) + t)))).Some?
            <==> completion < 4 && sideEffects < 5
  {
    hide ParseU32, ParseU64, U32Bytes, U64Bytes;
    AllRead();
  }

  /** 4 kinds of retryability, 4 of rollback, 3 of compensation, 4 of terminality, 9
      owners, 7 provenances. */
  lemma HandlingBounds(retry: u32, rollback: u32, compensation: u32, terminality: u32, owner: u32, provenance: u32,
                       t: seq<byte>)
    ensures ParseHandling(U32Bytes(retry) + (U32Bytes(rollback) + (U32Bytes(compensation)
                          + (U32Bytes(terminality) + (U32Bytes(owner) + (U32Bytes(provenance) + t)))))).Some?
            <==> retry < 4 && rollback < 4 && compensation < 3 && terminality < 4 && owner < 9 && provenance < 7
  {
    hide ParseU32, U32Bytes;
    AllRead();
  }

  /** 9 owners in an ownership frame, 16 types of message. */
  lemma OwnerBounds(owner: u32, generation: u64, boot: Uuid, t: seq<byte>)
    ensures ParseHolder(U32Bytes(owner) + (U64Bytes(generation) + (IdBytes(boot) + t))).Some? <==> owner < 9
  {
    hide ParseU32, ParseU64, ParseId, U32Bytes, U64Bytes, IdBytes;
    AllRead();
  }

  lemma MessageBounds(s: seq<byte>, m: WireMessage)
    requires |s| == |WireBytes(m)| && s[4..] == WireBytes(m)[4..]
    ensures ParseWire(s).Some? <==> Number(s, 0, 4) < 16
  {
    hide ParseId, ParseEnvelope, ParseBool, ParseText, ParseU64, FromBE;
    hide U32Bytes, IdBytes, EnvelopeBytes, BoolBytes, TextBytes, U64Bytes, Clip;
    WireReads(m, []);
    assert WireBytes(m) + [] == WireBytes(m);
    FromWidth(s, 4);
    FromWidth(WireBytes(m), 4);
    assert s[0..4] == s[..4];
  }

  /** Which records can be decoded, in numbers. */
  lemma DecodableExactly(r: FailureRecord)
    ensures Decodable(r) <==>
              && |r.dependencies| <= 4096
              && (r.authority.attempt == 0 || r.authority.attemptGen != 0)
              && (r.authority.boot == 0 || r.authority.epoch != 0)
  {
  }

  /** A receiver takes payloads of up to 32 MiB: a header that announces more is refused
      on the spot, and one that announces no more has its frame read. */
  lemma LimitExactly(kind: byte, len: u32, t: seq<byte>)
    ensures len > 33554432 ==> Receive(HeaderBytes(kind, len) + t) == (None, t)
    ensures len <= 33554432 && |t| < len + 8 ==> Receive(HeaderBytes(kind, len) + t) == (None, [])
    ensures len <= 33554432 && |t| >= len + 8 ==>
              Receive(HeaderBytes(kind, len) + t) == (ReadMessage(HeaderBytes(kind, len) + t[..len + 8]), t[len + 8..])
  {
    hide ParseHeader, HeaderBytes, ReadMessage;
    var h := HeaderBytes(kind, len);
    HeaderReads(kind, len, []);
    assert h + [] == h && (h + t)[..HEADER] == h && (h + t)[HEADER..] == t;
    if |t| >= len + 8 {
      assert (h + t)[..HEADER + len + 8] == h + t[..len + 8];
      assert (h + t)[HEADER + len + 8..] == t[len + 8..];
    }
  }

  /** What does not begin like a header is refused, eleven bytes having been read. */
  lemma GarbageRefused(s: seq<byte>)
    requires |s| >= 11 && s[..6] != [0x46, 0x46, 0x46, 0x00, 0x00, 0x01]
    ensures Receive(s) == (None, s[11..]) && ParseFrame(s) == None
  {
    hide ParseHeader, ParseU64, Fnv, ReadMessage;
    HeaderBegins(s[..HEADER]);
    HeaderBegins(s);
    assert s[..HEADER][..6] == s[..6];
  }

  lemma HeaderBegins(s: seq<byte>)
    ensures ParseHeader(s).Some? ==> |s| >= 11 && s[..6] == [0x46, 0x46, 0x46, 0x00, 0x00, 0x01]
  {
    hide ParseHeader, HeaderBytes;
    if ParseHeader(s).Some? {
      HeaderSpells(s);
      var ((kind, len), t) := ParseHeader(s).value;
      HeaderPlaces(kind, len);
      assert s[..6] == HeaderBytes(kind, len)[..6];
    }
  }

  /** Neither is a snapshot whose header payload does not begin so. */
  lemma CountsBegin(s: seq<byte>)
    ensures ParseCounts(s).Some? ==>
              && |s| >= 18 && s[..6] == [0x46, 0x46, 0x46, 0x00, 0x00, 0x01]
              && ParseCounts(s).value.0 == (Number(s, 6, 4), Number(s, 10, 4), Number(s, 14, 4))
  {
    hide ParseU16, ParseU32, CountsBytes, FromBE;
    if ParseCounts(s).Some? {
      var (magic, s1) := ParseU32(s).value;
      U32Spells(s);
      var (version, s2) := ParseU16(s1).value;
      U16Spells(s1);
      var (fails, s3) := ParseU32(s2).value;
      U32Spells(s2);
      var (ops, s4) := ParseU32(s3).value;
      U32Spells(s3);
      var (ids, s5) := ParseU32(s4).value;
      U32Spells(s4);
      CountsPrefix(s, fails, ops, ids, s5);
    }
  }

  lemma CountsPrefix(s: seq<byte>, fails: u32, ops: u32, ids: u32, t: seq<byte>)
    requires s == U32Bytes(MAGIC) + (U16Bytes(VERSION) + (U32Bytes(fails) + (U32Bytes(ops) + (U32Bytes(ids) + t))))
    ensures |s| >= 18 && s[..6] == [0x46, 0x46, 0x46, 0x00, 0x00, 0x01]
    ensures (fails, ops, ids) == (Number(s, 6, 4), Number(s, 10, 4), Number(s, 14, 4))
  {
    BigEndian(MAGIC);
    VersionBytes();
    hide U32Bytes, U16Bytes, FromBE;
    Spelled();
    ThreeParts(s, 6, U32Bytes(fails), U32Bytes(ops), U32Bytes(ids), t);
  }

  /** A message is read from a frame whatever kind the frame says, and whatever stands
      behind it in the payload. */
  lemma MessageInAnyFrame(kind: byte, m: WireMessage, t: seq<byte>)
    requires |WireBytes(m) + t| < 0x1_0000_0000
    ensures ReadMessage(FrameBytes(Frame(kind, WireBytes(m) + t))) == Some(ClipMessage(m))
  {
    hide ParseFrame, ParseWire, FrameBytes, WireBytes, ClipMessage;
    var f := Frame(kind, WireBytes(m) + t);
    FrameReads(f, []);
    assert FrameBytes(f) + [] == FrameBytes(f);
    WireReads(m, t);
  }
}

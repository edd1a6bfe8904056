/** The payloads of a snapshot's frames: what was written is read back, and what was
    read is written again, as far as the flags allow. */
module SnapshotPayloads {
  import opened Bytes
  import opened Ids
  import opened Authority
  import opened Codec
  import opened FailureRecords
  import opened Frames
  import opened Snapshot
  import Registry
  import Idempotency
  import Ownership

  lemma CountsReads(fails: u32, ops: u32, ids: u32, t: seq<byte>)
    ensures ParseCounts(CountsBytes(fails, ops, ids) + t) == Some(((fails, ops, ids), t))
  {
    hide ParseU32, ParseU16, U32Bytes, U16Bytes;
    var t2 := U32Bytes(ops) + (U32Bytes(ids) + t);
    var b := U32Bytes(MAGIC) + U16Bytes(VERSION);
    Concat(b + U32Bytes(fails) + U32Bytes(ops), U32Bytes(ids), t);
    Concat(b + U32Bytes(fails), U32Bytes(ops), U32Bytes(ids) + t);
    Concat(b, U32Bytes(fails), t2);
    Concat(U32Bytes(MAGIC), U16Bytes(VERSION), U32Bytes(fails) + t2);
    U32Reads(MAGIC, U16Bytes(VERSION) + (U32Bytes(fails) + t2));
    U16Reads(VERSION, U32Bytes(fails) + t2);
    U32Reads(fails, t2);
    U32Reads(ops, U32Bytes(ids) + t);
    U32Reads(ids, t);
  }

  lemma CountsRead(fails: u32, ops: u32, ids: u32)
    ensures ParseCounts(CountsBytes(fails, ops, ids)) == Some(((fails, ops, ids), []))
  {
    hide CountsBytes, ParseCounts;
    CountsReads(fails, ops, ids, []);
    assert CountsBytes(fails, ops, ids) + [] == CountsBytes(fails, ops, ids);
  }

  /** The operation as it comes back: an outcome too long for its length field is emptied. */
  function ClipRuntime(rt: Registry.Runtime): Registry.Runtime {
    rt.(outcome := Clip(rt.outcome))
  }

  predicate ValidRuntime(rt: Registry.Runtime) {
    ValidAuthority(rt.authority) && ValidAuthority(rt.terminal)
  }

  /** The layout with the two flag bytes left open. */
  function OpLayout(op: Uuid, rt: Registry.Runtime, recorded: byte, idempotent: byte, t: seq<byte>): seq<byte> {
    IdBytes(op) + (U32Bytes(rt.state) + (U32Bytes(rt.attempts) + ([recorded] + (TextBytes(rt.outcome)
    + ([idempotent] + (IdBytes(rt.idemKey) + (EnvelopeBytes(rt.authority) + (EnvelopeBytes(rt.terminal) + t))))))))
  }

  const RECORDED_AT := 24

  function IdempotentAt(rt: Registry.Runtime): nat {
    27 + |Clip(rt.outcome)|
  }

  function FlagByte(v: bool): byte {
    if v then 1 else 0
  }

  lemma OpGroups(op: Uuid, rt: Registry.Runtime, t: seq<byte>)
    ensures OpBytes(op, rt) + t == OpLayout(op, rt, FlagByte(rt.recorded), FlagByte(rt.idempotent), t)
  {
    hide U32Bytes, IdBytes, TextBytes, EnvelopeBytes, BE;
    OneByte(FlagByte(rt.recorded));
    OneByte(FlagByte(rt.idempotent));
    var a, z := EnvelopeBytes(rt.authority), EnvelopeBytes(rt.terminal);
    Concat8(IdBytes(op), U32Bytes(rt.state), U32Bytes(rt.attempts), [FlagByte(rt.recorded)], TextBytes(rt.outcome),
            [FlagByte(rt.idempotent)], IdBytes(rt.idemKey), a + z, t);
    Concat(a, z, t);
  }

  /** An operation is read whatever nonzero bytes its flags were written as, provided
      both its authorities are valid. */
  lemma OpLayoutReads(op: Uuid, rt: Registry.Runtime, recorded: byte, idempotent: byte, t: seq<byte>)
    requires (rt.recorded <==> recorded != 0) && (rt.idempotent <==> idempotent != 0)
    ensures ParseOp(OpLayout(op, rt, recorded, idempotent, t))
            == if ValidRuntime(rt) then Some(((op, ClipRuntime(rt)), t)) else None
  {
    hide ParseU32, ParseId, ParseBool, ParseText, ParseEnvelope, ValidAuthority;
    hide U32Bytes, IdBytes, TextBytes, EnvelopeBytes, Clip;
    EnvelopeReads(rt.authority, EnvelopeBytes(rt.terminal) + t);
    EnvelopeReads(rt.terminal, t);
    var t6 := IdBytes(rt.idemKey) + (EnvelopeBytes(rt.authority) + (EnvelopeBytes(rt.terminal) + t));
    FlagReads(idempotent, t6);
    FlagReads(recorded, TextBytes(rt.outcome) + ([idempotent] + t6));
    AllRead();
  }

  lemma OpRead(op: Uuid, rt: Registry.Runtime)
    ensures ParseOp(OpBytes(op, rt)) == if ValidRuntime(rt) then Some(((op, ClipRuntime(rt)), [])) else None
  {
    hide OpBytes, OpLayout, ParseOp, ValidRuntime, ClipRuntime;
    OpGroups(op, rt, []);
    assert OpBytes(op, rt) + [] == OpBytes(op, rt);
    OpLayoutReads(op, rt, FlagByte(rt.recorded), FlagByte(rt.idempotent), []);
  }

  lemma FlagPlaces(op: Uuid, rt: Registry.Runtime, recorded: byte, idempotent: byte, t: seq<byte>)
    ensures var s := OpLayout(op, rt, recorded, idempotent, t);
            && |s| > IdempotentAt(rt)
            && s[RECORDED_AT] == recorded && s[IdempotentAt(rt)] == idempotent
  {
    hide U32Bytes, IdBytes, TextBytes, EnvelopeBytes, Clip;
    var t6 := IdBytes(rt.idemKey) + (EnvelopeBytes(rt.authority) + (EnvelopeBytes(rt.terminal) + t));
    var s4 := TextBytes(rt.outcome) + ([idempotent] + t6);
    assert s4[|TextBytes(rt.outcome)|] == idempotent;
    var s3 := [recorded] + s4;
    var s := OpLayout(op, rt, recorded, idempotent, t);
    assert s[RECORDED_AT..] == s3;
    assert s[RECORDED_AT] == s3[0] && s[IdempotentAt(rt)] == s3[|TextBytes(rt.outcome)| + 1];
  }

  lemma HeadSpelled(s: seq<byte>)
    requires ParseOp(s).Some?
    ensures |s| > RECORDED_AT && ParseText(s[RECORDED_AT + 1..]).Some?
    ensures var ((op, rt), _) := ParseOp(s).value;
            && s == IdBytes(op) + (U32Bytes(rt.state) + (U32Bytes(rt.attempts) + s[RECORDED_AT..]))
            && rt.outcome == ParseText(s[RECORDED_AT + 1..]).value.0
  {
    hide ParseU32, ParseId, ParseBool, ParseText, ParseEnvelope, ValidAuthority;
    hide U32Bytes, IdBytes, BoolBytes;
    AllSpell();
    var (op, s1) := ParseId(s).value;
    var (state, s2) := ParseU32(s1).value;
    var (attempts, s3) := ParseU32(s2).value;
    BoolSpells(s3);
    assert s3 == s[RECORDED_AT..] && s3[1..] == s[RECORDED_AT + 1..];
  }

  lemma TailSpelled(s: seq<byte>)
    requires ParseOp(s).Some? && |s| > RECORDED_AT && ParseText(s[RECORDED_AT + 1..]).Some?
    ensures var ((_, rt), rest) := ParseOp(s).value;
            var s5 := ParseText(s[RECORDED_AT + 1..]).value.1;
            && s5 != []
            && s5[1..] == IdBytes(rt.idemKey) + (EnvelopeBytes(rt.authority) + (EnvelopeBytes(rt.terminal) + rest))
  {
    hide ParseU32, ParseId, ParseBool, ParseText, ParseEnvelope, ValidAuthority;
    hide U32Bytes, IdBytes, BoolBytes, EnvelopeBytes;
    AllSpell();
    var (op, s1) := ParseId(s).value;
    var (state, s2) := ParseU32(s1).value;
    var (attempts, s3) := ParseU32(s2).value;
    BoolSpells(s3);
    assert s3 == s[RECORDED_AT..] && s3[1..] == s[RECORDED_AT + 1..];
    var (outcome, s5) := ParseText(s3[1..]).value;
    BoolSpells(s5);
    var (idemKey, s7) := ParseId(s5[1..]).value;
    EnvelopeSpells(s7);
    EnvelopeSpells(ParseEnvelope(s7).value.1);
  }

  lemma TextTaken(s: seq<byte>)
    requires ParseText(s).Some?
    ensures Clip(ParseText(s).value.0) == ParseText(s).value.0
    ensures s == TextBytes(ParseText(s).value.0) + ParseText(s).value.1
  {
    TextSpells(s);
  }

  /** The bytes from which an operation was read, the flag bytes in their places. */
  lemma OpSpelled(s: seq<byte>)
    requires ParseOp(s).Some?
    ensures var ((op, rt), rest) := ParseOp(s).value;
            && |s| > IdempotentAt(rt) && IdempotentAt(rt) == 27 + |rt.outcome|
            && s == OpLayout(op, rt, s[RECORDED_AT], s[IdempotentAt(rt)], rest)
  {
    hide ParseOp, ParseText, U32Bytes, IdBytes, TextBytes, EnvelopeBytes, Clip;
    HeadSpelled(s);
    TailSpelled(s);
    TextTaken(s[RECORDED_AT + 1..]);
    var ((op, rt), rest) := ParseOp(s).value;
    var s3, s5 := s[RECORDED_AT..], ParseText(s[RECORDED_AT + 1..]).value.1;
    assert s3 == [s[RECORDED_AT]] + s[RECORDED_AT + 1..] && s5 == [s5[0]] + s5[1..];
    assert s == OpLayout(op, rt, s[RECORDED_AT], s5[0], rest);
    FlagPlaces(op, rt, s[RECORDED_AT], s5[0], rest);
  }

  lemma OpFlags(s: seq<byte>)
    requires ParseOp(s).Some?
    ensures var ((op, rt), rest) := ParseOp(s).value;
            && |s| > IdempotentAt(rt)
            && (rt.recorded <==> s[RECORDED_AT] != 0) && (rt.idempotent <==> s[IdempotentAt(rt)] != 0)
  {
    hide ParseOp, OpLayout, Clip;
    OpSpelled(s);
    var ((op, rt), rest) := ParseOp(s).value;
    var recorded, idempotent := s[RECORDED_AT], s[IdempotentAt(rt)];
    var rt' := rt.(recorded := recorded != 0, idempotent := idempotent != 0);
    LayoutIgnoresFlags(op, rt, rt', recorded, idempotent, rest);
    OpLayoutReads(op, rt', recorded, idempotent, rest);
  }

  lemma LayoutIgnoresFlags(op: Uuid, a: Registry.Runtime, b: Registry.Runtime, f: byte, g: byte, t: seq<byte>)
    requires b == a.(recorded := b.recorded, idempotent := b.idempotent)
    ensures OpLayout(op, a, f, g, t) == OpLayout(op, b, f, g, t)
  {
  }

  /** Conversely, an operation that was read is written again as the bytes it was read
      from exactly when both its flags were written as 0 or 1. */
  lemma OpSpells(s: seq<byte>)
    requires ParseOp(s).Some?
    ensures var ((op, rt), rest) := ParseOp(s).value;
            && |s| > IdempotentAt(rt) && IdempotentAt(rt) == 27 + |rt.outcome|
            && (s == OpBytes(op, rt) + rest <==> s[RECORDED_AT] <= 1 && s[IdempotentAt(rt)] <= 1)
  {
    hide ParseOp, OpLayout, OpBytes, Clip;
    OpSpelled(s);
    OpFlags(s);
    var ((op, rt), rest) := ParseOp(s).value;
    OpGroups(op, rt, rest);
    FlagPlaces(op, rt, FlagByte(rt.recorded), FlagByte(rt.idempotent), rest);
  }

  /** An operation that is read and then written differently: a flag was written as 2. */
  lemma OpFlagNotRewritten(op: Uuid, rt: Registry.Runtime)
    requires ValidRuntime(rt) && rt.recorded
    ensures var s := OpLayout(op, rt, 2, FlagByte(rt.idempotent), []);
            && ParseOp(s) == Some(((op, ClipRuntime(rt)), []))
            && OpBytes(op, ClipRuntime(rt)) != s
  {
    hide ParseOp, OpLayout, OpBytes, ValidRuntime, ClipRuntime, Clip;
    var s := OpLayout(op, rt, 2, FlagByte(rt.idempotent), []);
    OpLayoutReads(op, rt, 2, FlagByte(rt.idempotent), []);
    FlagPlaces(op, rt, 2, FlagByte(rt.idempotent), []);
    OpSpells(s);
    assert OpBytes(op, ClipRuntime(rt)) + [] == OpBytes(op, ClipRuntime(rt));
  }

  lemma ViewGroups(v: Idempotency.EntryView, t: seq<byte>)
    ensures ViewBytes(v) + t ==
            IdBytes(v.key.op) + (IdBytes(v.key.key) + (U64Bytes(v.hash) + (U32Bytes(v.state) + (TextBytes(v.metadata) + t))))
  {
    hide U32Bytes, U64Bytes, IdBytes, TextBytes;
    var head := IdBytes(v.key.op) + IdBytes(v.key.key) + U64Bytes(v.hash) + U32Bytes(v.state);
    Concat(head, TextBytes(v.metadata), t);
    Concat4(IdBytes(v.key.op), IdBytes(v.key.key), U64Bytes(v.hash), U32Bytes(v.state), TextBytes(v.metadata) + t);
  }

  lemma ViewReads(v: Idempotency.EntryView, t: seq<byte>)
    ensures ParseView(ViewBytes(v) + t) == Some((v.(metadata := Clip(v.metadata)), t))
  {
    hide ViewBytes, ParseU32, ParseU64, ParseId, ParseText, U32Bytes, U64Bytes, IdBytes, TextBytes, Clip;
    ViewGroups(v, t);
    AllRead();
  }

  lemma ViewRead(v: Idempotency.EntryView)
    ensures ParseView(ViewBytes(v)) == Some((v.(metadata := Clip(v.metadata)), []))
  {
    hide ViewBytes, ParseView, Clip;
    ViewReads(v, []);
    assert ViewBytes(v) + [] == ViewBytes(v);
  }

  lemma HolderReads(h: Ownership.Holder, t: seq<byte>)
    ensures ParseHolder(HolderBytes(h) + t) == Some((h, t))
  {
    hide ParseU32, ParseU64, ParseId, U32Bytes, U64Bytes, IdBytes;
    Concat(U32Bytes(h.owner) + U64Bytes(h.generation), IdBytes(h.boot), t);
    Concat(U32Bytes(h.owner), U64Bytes(h.generation), IdBytes(h.boot) + t);
    AllRead();
  }

  lemma HolderRead(h: Ownership.Holder)
    ensures ParseHolder(HolderBytes(h)) == Some((h, []))
  {
    hide HolderBytes, ParseHolder;
    HolderReads(h, []);
    assert HolderBytes(h) + [] == HolderBytes(h);
  }

  // ------------------------------------------------ what a frame's payload may hold

  /** The first frame is the header whatever kind it says, and after it frames of the
      four kinds come in any order; what stands behind a payload is not looked at. A
      refused payload, like a kind that is not known, refuses the file. */
  lemma PayloadsTaken(st: Partial, kind: byte, t: seq<byte>, counts: (u32, u32, u32), r: FailureRecord,
                      op: Uuid, rt: Registry.Runtime, v: Idempotency.EntryView, h: Ownership.Holder)
    requires |r.dependencies| < 0x1_0000_0000
    ensures st.first ==>
              Absorb(st, Frame(kind, CountsBytes(counts.0, counts.1, counts.2) + t))
              == Going(st.(first := false, nfail := counts.0, nop := counts.1, nid := counts.2))
    ensures !st.first ==>
              && Absorb(st, Frame(1, RecordBytes(r) + t))
                 == (if Decodable(r) then Going(st.(failures := st.failures + [ClipRecord(r)])) else Refused(st.own))
              && Absorb(st, Frame(2, OpBytes(op, rt) + t))
                 == (if ValidRuntime(rt)
                     then Going(st.(opids := st.opids + [op], runtimes := st.runtimes + [ClipRuntime(rt)]))
                     else Refused(st.own))
              && Absorb(st, Frame(3, ViewBytes(v) + t))
                 == Going(st.(views := st.views + [v.(metadata := Clip(v.metadata))]))
              && Absorb(st, Frame(4, HolderBytes(h) + t))
                 == Going(st.(own := Ownership.Step(st.own, Ownership.Adopt(h.owner, h.generation, h.boot))))
    ensures !st.first && (kind == 0 || kind > 4) ==> Absorb(st, Frame(kind, t)) == Refused(st.own)
  {
    hide ParseCounts, ParseRecord, ParseOp, ParseView, ParseHolder, Decodable, ValidRuntime, ClipRecord, ClipRuntime;
    hide CountsBytes, RecordBytes, OpBytes, ViewBytes, HolderBytes, Clip, OpLayout;
    CountsReads(counts.0, counts.1, counts.2, t);
    RecordReads(r, t);
    OpGroups(op, rt, t);
    OpLayoutReads(op, rt, FlagByte(rt.recorded), FlagByte(rt.idempotent), t);
    ViewReads(v, t);
    HolderReads(h, t);
  }

  // ----------------------------------------------------- entries that repeat a key

  /** Of several idempotency entries for one key in a file the last one counts. */
  lemma {:induction false} LastEntryCounts(vs: seq<Idempotency.EntryView>, i: nat)
    requires i < |vs| && forall j :: i < j < |vs| ==> vs[j].key != vs[i].key
    ensures vs[i].key in EntryMap(vs)
    ensures var e := EntryMap(vs)[vs[i].key];
            e.hash == vs[i].hash && e.state == vs[i].state && e.metadata == vs[i].metadata && e.authority == UNSET
  {
    var n := |vs| - 1;
    if i < n {
      LastEntryCounts(vs[..n], i);
    }
  }
}

/** The immutable failure record and its binary form. */
module FailureRecords {
  import opened Bytes
  import opened Ids
  import opened Authority
  import opened Codec

  type FailureClass = x: u32 | x < 23
  type FailureOrigin = x: u32 | x < 11
  type FailurePhase = x: u32 | x < 10
  type Ambiguity = x: u32 | x < 4
  type SideEffectState = x: u32 | x < 5
  type Retryability = x: u32 | x < 4
  type RollbackRequirement = x: u32 | x < 4
  type CompensationRequirement = x: u32 | x < 3
  type Terminality = x: u32 | x < 4
  type RecoveryOwner = x: u32 | x < 9
  type Provenance = x: u32 | x < 7

  datatype Identity = Identity(
    failureId: Uuid, operation: Uuid, request: Uuid, workload: Uuid, attempt: Uuid,
    dispatch: Uuid, worker: Uuid, node: Uuid, device: Uuid)

  datatype Cause = Cause(
    failureClass: FailureClass, origin: FailureOrigin, code: u32,
    summary: Text, reason: Text, phase: FailurePhase)

  datatype Effects = Effects(
    timestamp: u64, completion: Ambiguity, sideEffects: SideEffectState, unknownSideEffects: u32)

  datatype Handling = Handling(
    retryability: Retryability, rollback: RollbackRequirement, compensation: CompensationRequirement,
    terminality: Terminality, recoveryOwner: RecoveryOwner, provenance: Provenance)

  datatype FailureRecord = FailureRecord(
    ids: Identity, cause: Cause, effects: Effects, authority: Envelope, handling: Handling,
    causalParent: Uuid, dependencies: seq<Uuid>)

  const MAX_DEPENDENCIES := 4096

  // ------------------------------------------------------------------- layout

  function IdentityBytes(i: Identity): (b: seq<byte>)
    ensures |b| == 144
  {
    IdBytes(i.failureId) + IdBytes(i.operation) + IdBytes(i.request) + IdBytes(i.workload)
    + IdBytes(i.attempt) + IdBytes(i.dispatch) + IdBytes(i.worker) + IdBytes(i.node) + IdBytes(i.device)
  }

  function CauseBytes(c: Cause): (b: seq<byte>)
    ensures |b| <= 20 + 2 * 0xFFFF
  {
    U32Bytes(c.failureClass) + U32Bytes(c.origin) + U32Bytes(c.code)
    + TextBytes(c.summary) + TextBytes(c.reason) + U32Bytes(c.phase)
  }

  function EffectsBytes(e: Effects): (b: seq<byte>)
    ensures |b| == 20
  {
    U64Bytes(e.timestamp) + U32Bytes(e.completion) + U32Bytes(e.sideEffects) + U32Bytes(e.unknownSideEffects)
  }

  function HandlingBytes(h: Handling): (b: seq<byte>)
    ensures |b| == 24
  {
    U32Bytes(h.retryability) + U32Bytes(h.rollback) + U32Bytes(h.compensation)
    + U32Bytes(h.terminality) + U32Bytes(h.recoveryOwner) + U32Bytes(h.provenance)
  }

  function IdsBytes(ids: seq<Uuid>): (b: seq<byte>)
    ensures |b| == 16 * |ids|
  {
    if ids == [] then [] else IdBytes(ids[0]) + IdsBytes(ids[1..])
  }

  /** The dependency count is cast to 32 bits. */
  function Count32(n: nat): u32 {
    n % 0x1_0000_0000
  }

  function RecordBytes(r: FailureRecord): seq<byte> {
    IdentityBytes(r.ids) + CauseBytes(r.cause) + EffectsBytes(r.effects) + EnvelopeBytes(r.authority)
    + HandlingBytes(r.handling) + IdBytes(r.causalParent) + U32Bytes(Count32(|r.dependencies|))
    + IdsBytes(r.dependencies)
  }

  // ------------------------------------------------------------------ reading

  function ParseIdentity(s: seq<byte>): Option<(Identity, seq<byte>)> {
    var (failureId, s) :- ParseId(s);
    var (operation, s) :- ParseId(s);
    var (request, s) :- ParseId(s);
    var (workload, s) :- ParseId(s);
    var (attempt, s) :- ParseId(s);
    var (dispatch, s) :- ParseId(s);
    var (worker, s) :- ParseId(s);
    var (node, s) :- ParseId(s);
    var (device, s) :- ParseId(s);
    Some((Identity(failureId, operation, request, workload, attempt, dispatch, worker, node, device), s))
  }

  function ParseCause(s: seq<byte>): Option<(Cause, seq<byte>)> {
    var (failureClass, s) :- ParseEnum(23, s);
    var (origin, s) :- ParseEnum(11, s);
    var (code, s) :- ParseU32(s);
    var (summary, s) :- ParseText(s);
    var (reason, s) :- ParseText(s);
    var (phase, s) :- ParseEnum(10, s);
    Some((Cause(failureClass, origin, code, summary, reason, phase), s))
  }

  function ParseEffects(s: seq<byte>): Option<(Effects, seq<byte>)> {
    var (timestamp, s) :- ParseU64(s);
    var (completion, s) :- ParseEnum(4, s);
    var (sideEffects, s) :- ParseEnum(5, s);
    var (unknown, s) :- ParseU32(s);
    Some((Effects(timestamp, completion, sideEffects, unknown), s))
  }

  function ParseHandling(s: seq<byte>): Option<(Handling, seq<byte>)> {
    var (retryability, s) :- ParseEnum(4, s);
    var (rollback, s) :- ParseEnum(4, s);
    var (compensation, s) :- ParseEnum(3, s);
    var (terminality, s) :- ParseEnum(4, s);
    var (recoveryOwner, s) :- ParseEnum(9, s);
    var (provenance, s) :- ParseEnum(7, s);
    Some((Handling(retryability, rollback, compensation, terminality, recoveryOwner, provenance), s))
  }

  function ParseIds(n: nat, s: seq<byte>): (r: Option<(seq<Uuid>, seq<byte>)>)
    ensures r.Some? ==> |r.value.0| == n
  {
    if n == 0 then Some(([], s))
    else
      var (u, s) :- ParseId(s);
      var (us, s) :- ParseIds(n - 1, s);
      Some(([u] + us, s))
  }

  function ParseRecord(s: seq<byte>): Option<(FailureRecord, seq<byte>)> {
    var (ids, s) :- ParseIdentity(s);
    var (cause, s) :- ParseCause(s);
    var (effects, s) :- ParseEffects(s);
    var (authority, s) :- ParseEnvelope(s);
    var (handling, s) :- ParseHandling(s);
    var (causalParent, s) :- ParseId(s);
    var (n, s) :- ParseU32(s);
    if n > MAX_DEPENDENCIES then None
    else
      var (dependencies, s) :- ParseIds(n, s);
      if !ValidAuthority(authority) then None
      else Some((FailureRecord(ids, cause, effects, authority, handling, causalParent, dependencies), s))
  }

  /** The record as it comes back: text too long for its length field is emptied. */
  function ClipRecord(r: FailureRecord): FailureRecord {
    r.(cause := r.cause.(summary := Clip(r.cause.summary), reason := Clip(r.cause.reason)))
  }

  predicate Decodable(r: FailureRecord) {
    ValidAuthority(r.authority) && |r.dependencies| <= MAX_DEPENDENCIES
  }

  // ------------------------------------------------------------- both ways, by block

  lemma IdentityGroups(i: Identity, t: seq<byte>)
    ensures IdentityBytes(i) + t ==
            IdBytes(i.failureId) + (IdBytes(i.operation) + (IdBytes(i.request) + (IdBytes(i.workload)
            + (IdBytes(i.attempt) + (IdBytes(i.dispatch) + (IdBytes(i.worker) + (IdBytes(i.node)
            + (IdBytes(i.device) + t))))))))
  {
    Concat(IdBytes(i.failureId) + IdBytes(i.operation) + IdBytes(i.request) + IdBytes(i.workload)
           + IdBytes(i.attempt) + IdBytes(i.dispatch) + IdBytes(i.worker) + IdBytes(i.node), IdBytes(i.device), t);
    Concat8(IdBytes(i.failureId), IdBytes(i.operation), IdBytes(i.request), IdBytes(i.workload),
            IdBytes(i.attempt), IdBytes(i.dispatch), IdBytes(i.worker), IdBytes(i.node), IdBytes(i.device) + t);
  }

  lemma IdentityExact(i: Identity, t: seq<byte>, s: seq<byte>)
    ensures ParseIdentity(IdentityBytes(i) + t) == Some((i, t))
    ensures ParseIdentity(s).Some? ==> s == IdentityBytes(ParseIdentity(s).value.0) + ParseIdentity(s).value.1
  {
    hide ParseId, IdBytes, IdentityBytes;
    IdentityGroups(i, t);
    if ParseIdentity(s).Some? {
      IdentityGroups(ParseIdentity(s).value.0, ParseIdentity(s).value.1);
    }
    AllRead();
    AllSpell();
  }

  lemma CauseGroups(c: Cause, t: seq<byte>)
    ensures CauseBytes(c) + t ==
            U32Bytes(c.failureClass) + (U32Bytes(c.origin) + (U32Bytes(c.code)
            + (TextBytes(c.summary) + (TextBytes(c.reason) + (U32Bytes(c.phase) + t)))))
  {
    Concat4(U32Bytes(c.failureClass) + U32Bytes(c.origin), U32Bytes(c.code), TextBytes(c.summary),
            TextBytes(c.reason) + U32Bytes(c.phase), t);
    Concat(U32Bytes(c.failureClass) + U32Bytes(c.origin) + U32Bytes(c.code) + TextBytes(c.summary),
           TextBytes(c.reason), U32Bytes(c.phase));
    Concat(TextBytes(c.reason), U32Bytes(c.phase), t);
    Concat(U32Bytes(c.failureClass), U32Bytes(c.origin),
           U32Bytes(c.code) + (TextBytes(c.summary) + (TextBytes(c.reason) + (U32Bytes(c.phase) + t))));
  }

  lemma CauseReads(c: Cause, t: seq<byte>)
    ensures ParseCause(CauseBytes(c) + t) ==
            Some((c.(summary := Clip(c.summary), reason := Clip(c.reason)), t))
  {
    hide ParseU32, ParseText, U32Bytes, TextBytes, CauseBytes, Clip;
    CauseGroups(c, t);
    AllRead();
  }

  lemma CauseSpells(s: seq<byte>)
    requires ParseCause(s).Some?
    ensures s == CauseBytes(ParseCause(s).value.0) + ParseCause(s).value.1
  {
    hide ParseU32, ParseText, U32Bytes, TextBytes, CauseBytes;
    AllSpell();
    CauseGroups(ParseCause(s).value.0, ParseCause(s).value.1);
  }

  lemma EffectsGroups(e: Effects, t: seq<byte>)
    ensures EffectsBytes(e) + t ==
            U64Bytes(e.timestamp) + (U32Bytes(e.completion) + (U32Bytes(e.sideEffects)
            + (U32Bytes(e.unknownSideEffects) + t)))
  {
    Concat4(U64Bytes(e.timestamp), U32Bytes(e.completion), U32Bytes(e.sideEffects),
            U32Bytes(e.unknownSideEffects), t);
  }

  lemma EffectsExact(e: Effects, t: seq<byte>, s: seq<byte>)
    ensures ParseEffects(EffectsBytes(e) + t) == Some((e, t))
    ensures ParseEffects(s).Some? ==> s == EffectsBytes(ParseEffects(s).value.0) + ParseEffects(s).value.1
  {
    hide ParseU32, ParseU64, U32Bytes, U64Bytes, EffectsBytes;
    EffectsGroups(e, t);
    if ParseEffects(s).Some? {
      EffectsGroups(ParseEffects(s).value.0, ParseEffects(s).value.1);
    }
    AllRead();
    AllSpell();
  }

  lemma HandlingGroups(h: Handling, t: seq<byte>)
    ensures HandlingBytes(h) + t ==
            U32Bytes(h.retryability) + (U32Bytes(h.rollback) + (U32Bytes(h.compensation)
            + (U32Bytes(h.terminality) + (U32Bytes(h.recoveryOwner) + (U32Bytes(h.provenance) + t)))))
  {
    var a, b, c := U32Bytes(h.retryability), U32Bytes(h.rollback), U32Bytes(h.compensation);
    var d, e, f := U32Bytes(h.terminality), U32Bytes(h.recoveryOwner), U32Bytes(h.provenance);
    Concat4(a + b, c, d, e, f + t);
    Concat(a + b + c + d + e, f, t);
    Concat(a, b, c + (d + (e + (f + t))));
  }

  lemma HandlingExact(h: Handling, t: seq<byte>, s: seq<byte>)
    ensures ParseHandling(HandlingBytes(h) + t) == Some((h, t))
    ensures ParseHandling(s).Some? ==> s == HandlingBytes(ParseHandling(s).value.0) + ParseHandling(s).value.1
  {
    hide ParseU32, U32Bytes, HandlingBytes;
    HandlingGroups(h, t);
    if ParseHandling(s).Some? {
      HandlingGroups(ParseHandling(s).value.0, ParseHandling(s).value.1);
    }
    AllRead();
    AllSpell();
  }

  lemma {:induction false} IdsRead(ids: seq<Uuid>, t: seq<byte>)
    ensures ParseIds(|ids|, IdsBytes(ids) + t) == Some((ids, t))
  {
    hide ParseId, IdBytes;
    if ids == [] {
      assert IdsBytes(ids) + t == t;
    } else {
      IdsRead(ids[1..], t);
      Concat(IdBytes(ids[0]), IdsBytes(ids[1..]), t);
      IdReads(ids[0], IdsBytes(ids[1..]) + t);
      assert ids == [ids[0]] + ids[1..];
    }
  }

  lemma {:induction false} IdsSpell(n: nat, s: seq<byte>)
    requires ParseIds(n, s).Some?
    ensures s == IdsBytes(ParseIds(n, s).value.0) + ParseIds(n, s).value.1
  {
    hide ParseId, IdBytes;
    if n == 0 {
      assert IdsBytes([]) + s == s;
    } else {
      IdSpells(s);
      var (u, rest) := ParseId(s).value;
      IdsSpell(n - 1, rest);
      var (us, tail) := ParseIds(n - 1, rest).value;
      Concat(IdBytes(u), IdsBytes(us), tail);
      assert ([u] + us)[1..] == us;
    }
  }

  lemma RecordGroups(r: FailureRecord, t: seq<byte>)
    ensures RecordBytes(r) + t ==
            IdentityBytes(r.ids) + (CauseBytes(r.cause) + (EffectsBytes(r.effects) + (EnvelopeBytes(r.authority)
            + (HandlingBytes(r.handling) + (IdBytes(r.causalParent) + (U32Bytes(Count32(|r.dependencies|))
            + (IdsBytes(r.dependencies) + t)))))))
  {
    hide IdentityBytes, CauseBytes, EffectsBytes, EnvelopeBytes, HandlingBytes, IdsBytes, IdBytes, U32Bytes;
    Concat8(IdentityBytes(r.ids), CauseBytes(r.cause), EffectsBytes(r.effects), EnvelopeBytes(r.authority),
            HandlingBytes(r.handling), IdBytes(r.causalParent), U32Bytes(Count32(|r.dependencies|)),
            IdsBytes(r.dependencies), t);
  }

  lemma RecordSize(r: FailureRecord)
    ensures |RecordBytes(r)| <= 312 + 2 * 0xFFFF + 4 + 16 * |r.dependencies|
  {
  }

  /** Decoding an encoding, whatever follows it, succeeds exactly for records with
      valid authority and at most 4096 dependencies; it gives the record back
      (over-long text emptied) and stops exactly where the encoding ends. */
  lemma RecordReads(r: FailureRecord, t: seq<byte>)
    requires |r.dependencies| < 0x1_0000_0000
    ensures ParseRecord(RecordBytes(r) + t) == if Decodable(r) then Some((ClipRecord(r), t)) else None
  {
    hide ParseU32, ParseId, ParseIdentity, ParseCause, ParseEffects, ParseEnvelope, ParseHandling, ParseIds;
    hide IdentityBytes, CauseBytes, EffectsBytes, EnvelopeBytes, HandlingBytes, IdsBytes, IdBytes, U32Bytes;
    hide RecordBytes, ValidAuthority;
    RecordGroups(r, t);
    var n := |r.dependencies|;
    var t7 := IdsBytes(r.dependencies) + t;
    var t6 := U32Bytes(n) + t7;
    var t5 := IdBytes(r.causalParent) + t6;
    var t4 := HandlingBytes(r.handling) + t5;
    var t3 := EnvelopeBytes(r.authority) + t4;
    var t2 := EffectsBytes(r.effects) + t3;
    var t1 := CauseBytes(r.cause) + t2;
    IdentityExact(r.ids, t1, []);
    CauseReads(r.cause, t2);
    EffectsExact(r.effects, t3, []);
    EnvelopeReads(r.authority, t4);
    HandlingExact(r.handling, t5, []);
    IdReads(r.causalParent, t6);
    U32Reads(n, t7);
    IdsRead(r.dependencies, t);
  }

  /** Conversely, whenever decoding succeeds the bytes it consumed are exactly the
      encoding of the record it returns. */
  lemma RecordSpells(s: seq<byte>)
    requires ParseRecord(s).Some?
    ensures var (r, rest) := ParseRecord(s).value;
            s == RecordBytes(r) + rest && Decodable(r) && ClipRecord(r) == r
  {
    hide ParseU32, ParseId, ParseIdentity, ParseCause, ParseEffects, ParseEnvelope, ParseHandling, ParseIds;
    hide IdentityBytes, CauseBytes, EffectsBytes, EnvelopeBytes, HandlingBytes, IdsBytes, IdBytes, U32Bytes;
    hide RecordBytes, ValidAuthority, Clip;
    var (ids, s1) := ParseIdentity(s).value;
    IdentityExact(ids, [], s);
    var (cause, s2) := ParseCause(s1).value;
    CauseSpells(s1);
    CauseIsClipped(s1);
    var (effects, s3) := ParseEffects(s2).value;
    EffectsExact(effects, [], s2);
    var (authority, s4) := ParseEnvelope(s3).value;
    EnvelopeSpells(s3);
    var (handling, s5) := ParseHandling(s4).value;
    HandlingExact(handling, [], s4);
    var (parent, s6) := ParseId(s5).value;
    IdSpells(s5);
    var (n, s7) := ParseU32(s6).value;
    U32Spells(s6);
    var (dependencies, rest) := ParseIds(n, s7).value;
    IdsSpell(n, s7);
    RecordGroups(FailureRecord(ids, cause, effects, authority, handling, parent, dependencies), rest);
  }

  lemma CauseIsClipped(s: seq<byte>)
    requires ParseCause(s).Some?
    ensures Clip(ParseCause(s).value.0.summary) == ParseCause(s).value.0.summary
    ensures Clip(ParseCause(s).value.0.reason) == ParseCause(s).value.0.reason
  {
    hide ParseU32;
  }

  // ------------------------------------------------------------------- the codec

  method EncodeIdentity(w: BinaryWriter, i: Identity)
    modifies w
    ensures w.buf == old(w.buf) + IdentityBytes(i)
  {
    hide IdBytes;
    w.Id(i.failureId);
    w.Id(i.operation);
    w.Id(i.request);
    w.Id(i.workload);
    w.Id(i.attempt);
    w.Id(i.dispatch);
    w.Id(i.worker);
    w.Id(i.node);
    WriterGroups(old(w.buf), IdBytes(i.failureId), IdBytes(i.operation), IdBytes(i.request), IdBytes(i.workload),
                 IdBytes(i.attempt), IdBytes(i.dispatch), IdBytes(i.worker), IdBytes(i.node));
    ghost var eight := w.buf[|old(w.buf)|..];
    w.Id(i.device);
    Concat(old(w.buf), eight, IdBytes(i.device));
  }

  /** encode_failure_record */
  method EncodeFailureRecord(w: BinaryWriter, r: FailureRecord)
    modifies w
    ensures w.buf == old(w.buf) + RecordBytes(r)
  {
    hide IdentityBytes, CauseBytes, EffectsBytes, EnvelopeBytes, HandlingBytes, IdsBytes, IdBytes, U32Bytes;
    EncodeIdentity(w, r.ids);
    EncodeCause(w, r.cause);
    EncodeEffects(w, r.effects);
    w.Authority(r.authority);
    EncodeHandling(w, r.handling);
    w.Id(r.causalParent);
    w.U32(Count32(|r.dependencies|));
    EncodeIds(w, r.dependencies);
    WriterGroups(old(w.buf), IdentityBytes(r.ids), CauseBytes(r.cause), EffectsBytes(r.effects),
                 EnvelopeBytes(r.authority), HandlingBytes(r.handling), IdBytes(r.causalParent),
                 U32Bytes(Count32(|r.dependencies|)), IdsBytes(r.dependencies));
  }

  method EncodeCause(w: BinaryWriter, c: Cause)
    modifies w
    ensures w.buf == old(w.buf) + CauseBytes(c)
  {
    hide U32Bytes, TextBytes;
    w.U32(c.failureClass);
    w.U32(c.origin);
    w.U32(c.code);
    w.Str16(c.summary);
    w.Str16(c.reason);
    w.U32(c.phase);
    WriterGroups(old(w.buf), U32Bytes(c.failureClass), U32Bytes(c.origin), U32Bytes(c.code),
                 TextBytes(c.summary), TextBytes(c.reason), U32Bytes(c.phase), [], []);
  }

  method EncodeEffects(w: BinaryWriter, e: Effects)
    modifies w
    ensures w.buf == old(w.buf) + EffectsBytes(e)
  {
    hide U32Bytes, U64Bytes;
    w.U64(e.timestamp);
    w.U32(e.completion);
    w.U32(e.sideEffects);
    w.U32(e.unknownSideEffects);
    WriterGroups(old(w.buf), U64Bytes(e.timestamp), U32Bytes(e.completion), U32Bytes(e.sideEffects),
                 U32Bytes(e.unknownSideEffects), [], [], [], []);
  }

  method EncodeHandling(w: BinaryWriter, h: Handling)
    modifies w
    ensures w.buf == old(w.buf) + HandlingBytes(h)
  {
    hide U32Bytes;
    w.U32(h.retryability);
    w.U32(h.rollback);
    w.U32(h.compensation);
    w.U32(h.terminality);
    w.U32(h.recoveryOwner);
    w.U32(h.provenance);
    WriterGroups(old(w.buf), U32Bytes(h.retryability), U32Bytes(h.rollback), U32Bytes(h.compensation),
                 U32Bytes(h.terminality), U32Bytes(h.recoveryOwner), U32Bytes(h.provenance), [], []);
  }

  method EncodeIds(w: BinaryWriter, ids: seq<Uuid>)
    modifies w
    ensures w.buf == old(w.buf) + IdsBytes(ids)
  {
    hide IdBytes;
    for i := 0 to |ids|
      invariant w.buf + IdsBytes(ids[i..]) == old(w.buf) + IdsBytes(ids)
    {
      Concat(w.buf, IdBytes(ids[i]), IdsBytes(ids[i + 1..]));
      assert ids[i..][1..] == ids[i + 1..];
      w.Id(ids[i]);
    }
    assert IdsBytes(ids[|ids|..]) == [];
  }

  method DecodeIds(r: BinaryReader, n: nat) returns (ids: seq<Uuid>)
    requires r.Valid()
    modifies r
    ensures r.Valid()
    ensures match ParseIds(n, old(r.Rest()))
            case Some((us, rest)) => ids == us && r.Rest() == rest && r.ok == old(r.ok)
            case None => !r.ok
  {
    hide ParseId;
    ids := [];
    ghost var failed := false;
    PrefixNothing(ParseIds(n, r.Rest()));
    for i := 0 to n
      invariant r.Valid()
      invariant failed ==> !r.ok && ParseIds(n, old(r.Rest())).None?
      invariant !failed ==> r.ok == old(r.ok) && Prefixed(ids, ParseIds(n - i, r.Rest())) == ParseIds(n, old(r.Rest()))
    {
      if ParseId(r.Rest()).None? {
        failed := true;
      } else {
        PrefixOne(ids, n - i, r.Rest());
      }
      var u := r.Id();
      ids := ids + [u];
    }
  }

  lemma PrefixNothing(p: Option<(seq<Uuid>, seq<byte>)>)
    ensures Prefixed([], p) == p
  {
    if p.Some? {
      assert [] + p.value.0 == p.value.0;
    }
  }

  lemma PrefixOne(ids: seq<Uuid>, n: nat, s: seq<byte>)
    requires n > 0 && ParseId(s).Some?
    ensures Prefixed(ids, ParseIds(n, s)) == Prefixed(ids + [ParseId(s).value.0], ParseIds(n - 1, ParseId(s).value.1))
  {
    hide ParseId;
    var (u, rest) := ParseId(s).value;
    if ParseIds(n - 1, rest).Some? {
      var us := ParseIds(n - 1, rest).value.0;
      assert ids + ([u] + us) == ids + [u] + us;
    }
  }

  /** A parsed list with the ids already read put in front. */
  ghost function Prefixed(ids: seq<Uuid>, p: Option<(seq<Uuid>, seq<byte>)>): Option<(seq<Uuid>, seq<byte>)> {
    if p.None? then None else Some((ids + p.value.0, p.value.1))
  }

  const NO_RECORD := FailureRecord(
    Identity(0, 0, 0, 0, 0, 0, 0, 0, 0), Cause(22, 10, 0, [], [], 9), Effects(0, 3, 4, 0), UNSET,
    Handling(3, 0, 0, 3, 8, 6), NULL_ID, [])

  method DecodeIdentity(r: BinaryReader) returns (i: Identity)
    requires r.Valid()
    modifies r
    ensures r.Valid()
    ensures match ParseIdentity(old(r.Rest()))
            case Some((x, rest)) => i == x && r.Rest() == rest && r.ok == old(r.ok)
            case None => !r.ok
  {
    hide ParseId;
    var failureId := r.Id();
    var operation := r.Id();
    var request := r.Id();
    var workload := r.Id();
    var attempt := r.Id();
    var dispatch := r.Id();
    var worker := r.Id();
    var node := r.Id();
    var device := r.Id();
    i := Identity(failureId, operation, request, workload, attempt, dispatch, worker, node, device);
  }

  method DecodeCause(r: BinaryReader) returns (good: bool, c: Cause)
    requires r.Valid()
    modifies r
    ensures r.Valid()
    ensures (good && r.ok) == (old(r.ok) && ParseCause(old(r.Rest())).Some?)
    ensures good && r.ok ==> ParseCause(old(r.Rest())) == Some((c, r.Rest()))
  {
    hide ParseU32, ParseText;
    good, c := false, NO_RECORD.cause;
    var fc := r.U32();
    var fo := r.U32();
    if !r.ok || fc >= 23 || fo >= 11 {
      return;
    }
    var code := r.U32();
    var summary := r.Str16();
    var reason := r.Str16();
    var ph := r.U32();
    if !r.ok || ph >= 10 {
      return;
    }
    good, c := true, Cause(fc, fo, code, summary, reason, ph);
  }

  method DecodeEffects(r: BinaryReader) returns (good: bool, e: Effects)
    requires r.Valid()
    modifies r
    ensures r.Valid()
    ensures (good && r.ok) == (old(r.ok) && ParseEffects(old(r.Rest())).Some?)
    ensures good && r.ok ==> ParseEffects(old(r.Rest())) == Some((e, r.Rest()))
  {
    hide ParseU32, ParseU64;
    good, e := false, NO_RECORD.effects;
    var timestamp := r.U64();
    var comp := r.U32();
    if !r.ok || comp >= 4 {
      return;
    }
    var ses := r.U32();
    if !r.ok || ses >= 5 {
      return;
    }
    var unknown := r.U32();
    good, e := true, Effects(timestamp, comp, ses, unknown);
  }

  method DecodeHandling(r: BinaryReader) returns (good: bool, h: Handling)
    requires r.Valid()
    modifies r
    ensures r.Valid()
    ensures (good && r.ok) == (old(r.ok) && ParseHandling(old(r.Rest())).Some?)
    ensures good && r.ok ==> ParseHandling(old(r.Rest())) == Some((h, r.Rest()))
  {
    hide ParseU32;
    good, h := false, NO_RECORD.handling;
    var ret := r.U32();
    if !r.ok || ret >= 4 {
      return;
    }
    var rb := r.U32();
    if !r.ok || rb >= 4 {
      return;
    }
    var cp := r.U32();
    if !r.ok || cp >= 3 {
      return;
    }
    var tm := r.U32();
    if !r.ok || tm >= 4 {
      return;
    }
    var ro := r.U32();
    if !r.ok || ro >= 9 {
      return;
    }
    var pr := r.U32();
    if !r.ok || pr >= 7 {
      return;
    }
    good, h := true, Handling(ret, rb, cp, tm, ro, pr);
  }

  /** decode_failure_record: every early refusal of the source, in its order. */
  method DecodeFailureRecord(r: BinaryReader) returns (ok: bool, rec: FailureRecord)
    requires r.Valid()
    modifies r
    ensures r.Valid()
    ensures ok == (old(r.ok) && ParseRecord(old(r.Rest())).Some?)
    ensures ok ==> ParseRecord(old(r.Rest())) == Some((rec, r.Rest())) && r.ok
  {
    hide ParseU32, ParseId, ParseIdentity, ParseCause, ParseEffects, ParseEnvelope, ParseHandling, ParseIds;
    hide ValidAuthority;
    ok, rec := false, NO_RECORD;
    if !r.ok {
      return;
    }
    var ids := DecodeIdentity(r);
    var good, cause := DecodeCause(r);
    if !good {
      return;
    }
    var effects;
    good, effects := DecodeEffects(r);
    if !good {
      return;
    }
    var authority := r.Authority();
    var handling;
    good, handling := DecodeHandling(r);
    if !good {
      return;
    }
    var causalParent := r.Id();
    var n := r.U32();
    if !r.ok || n > MAX_DEPENDENCIES {
      return;
    }
    var dependencies := DecodeIds(r, n);
    if !r.ok {
      return;
    }
    ok := ValidAuthority(authority);
    rec := FailureRecord(ids, cause, effects, authority, handling, causalParent, dependencies);
  }
}

/** The failure store: an append-only failure log beside the operation registry,
    the idempotency table and the recovery ownership, saved to and loaded from one
    snapshot. */
module Store {
  import opened Bytes
  import opened Ids
  import opened Authority
  import opened Codec
  import opened FailureRecords
  import opened Frames
  import opened Snapshot
  import opened SnapshotPayloads
  import opened SnapshotLaws
  import Registry
  import Idempotency
  import Ownership

  /** What append_failure demands of a record that is not in the log yet. */
  predicate Appendable(r: FailureRecord) {
    && r.ids.failureId != NULL_ID && r.ids.operation != NULL_ID && r.ids.attempt != NULL_ID
    && ValidAuthority(r.authority)
  }

  /** append_failure: the log afterwards and whether the record was taken. */
  function Append(m: FailureLog, r: FailureRecord): (FailureLog, bool) {
    if Appendable(r) && r.ids.failureId !in m then (m[r.ids.failureId := r], true) else (m, false)
  }

  /** Every record sits under its own id and carries a valid authority. */
  predicate SoundLog(m: FailureLog) {
    Keyed(m) && forall k :: k in m ==> ValidAuthority(m[k].authority)
  }

  function AppendAll(m: FailureLog, rs: seq<FailureRecord>): FailureLog {
    if rs == [] then m else Append(AppendAll(m, rs[..|rs| - 1]), rs[|rs| - 1]).0
  }

  /** The records of one id that were taken. */
  function Taken(m: FailureLog, rs: seq<FailureRecord>, id: Uuid): seq<FailureRecord> {
    if rs == [] then []
    else
      var n := |rs| - 1;
      Taken(m, rs[..n], id)
      + if rs[n].ids.failureId == id && Append(AppendAll(m, rs[..n]), rs[n]).1 then [rs[n]] else []
  }

  /** The log is append-only: a record that is in it is never replaced, of each id at
      most one record is taken, and that one is what the log then holds. */
  lemma {:induction false} AppendOnly(m: FailureLog, rs: seq<FailureRecord>, id: Uuid)
    requires SoundLog(m)
    ensures SoundLog(AppendAll(m, rs))
    ensures id in m ==> Taken(m, rs, id) == [] && id in AppendAll(m, rs) && AppendAll(m, rs)[id] == m[id]
    ensures id !in m && id !in AppendAll(m, rs) ==> Taken(m, rs, id) == []
    ensures id !in m && id in AppendAll(m, rs) ==> Taken(m, rs, id) == [AppendAll(m, rs)[id]]
  {
    if rs != [] {
      AppendOnly(m, rs[..|rs| - 1], id);
    }
  }

  // ----------------------------------------------------- writing one frame payload

  method WriteOp(w: BinaryWriter, op: Uuid, rt: Registry.Runtime)
    modifies w
    ensures w.buf == old(w.buf) + OpBytes(op, rt)
  {
    hide U32Bytes, IdBytes, BoolBytes, TextBytes, EnvelopeBytes;
    w.Id(op);
    w.U32(rt.state);
    w.U32(rt.attempts);
    w.Bool(rt.recorded);
    w.Str16(rt.outcome);
    w.Bool(rt.idempotent);
    w.Id(rt.idemKey);
    ghost var seven := w.buf;
    w.Authority(rt.authority);
    w.Authority(rt.terminal);
    Concat(seven, EnvelopeBytes(rt.authority), EnvelopeBytes(rt.terminal));
    WriterGroups(old(w.buf), IdBytes(op), U32Bytes(rt.state), U32Bytes(rt.attempts), BoolBytes(rt.recorded),
                 TextBytes(rt.outcome), BoolBytes(rt.idempotent), IdBytes(rt.idemKey),
                 EnvelopeBytes(rt.authority) + EnvelopeBytes(rt.terminal));
  }

  method WriteView(w: BinaryWriter, v: Idempotency.EntryView)
    modifies w
    ensures w.buf == old(w.buf) + ViewBytes(v)
  {
    hide U32Bytes, U64Bytes, IdBytes, TextBytes;
    w.Id(v.key.op);
    w.Id(v.key.key);
    w.U64(v.hash);
    w.U32(v.state);
    w.Str16(v.metadata);
    WriterGroups(old(w.buf), IdBytes(v.key.op), IdBytes(v.key.key), U64Bytes(v.hash), U32Bytes(v.state),
                 TextBytes(v.metadata), [], [], []);
  }

  // ----------------------------------------------------- reading one frame payload

  method ReadCounts(r: BinaryReader) returns (good: bool, fails: u32, ops: u32, ids: u32)
    requires r.Valid() && r.ok
    modifies r
    ensures r.Valid()
    ensures good == ParseCounts(old(r.Rest())).Some?
    ensures good ==> ParseCounts(old(r.Rest())).value.0 == (fails, ops, ids)
  {
    hide ParseU16, ParseU32;
    good, fails, ops, ids := false, 0, 0, 0;
    var magic := r.U32();
    if !r.ok || magic != MAGIC {
      return;
    }
    var version := r.U16();
    if !r.ok || version != VERSION {
      return;
    }
    fails := r.U32();
    ops := r.U32();
    ids := r.U32();
    good := r.ok;
  }

  const NO_RUNTIME := Registry.Created(UNSET)

  method ReadOp(r: BinaryReader) returns (good: bool, op: Uuid, rt: Registry.Runtime)
    requires r.Valid() && r.ok
    modifies r
    ensures r.Valid()
    ensures good == ParseOp(old(r.Rest())).Some?
    ensures good ==> ParseOp(old(r.Rest())).value.0 == (op, rt)
  {
    hide ParseU32, ParseId, ParseText, ParseEnvelope, ParseU8, ValidAuthority;
    good, rt := false, NO_RUNTIME;
    op := r.Id();
    var state := r.U32();
    var attempts := r.U32();
    var recorded := r.U8();
    var outcome := r.Str16();
    var idempotent := r.U8();
    var idemKey := r.Id();
    var authority := r.Authority();
    if !r.ok || !ValidAuthority(authority) {
      return;
    }
    var terminal := r.Authority();
    if !r.ok || !ValidAuthority(terminal) {
      return;
    }
    good := true;
    rt := Registry.Runtime(state, authority, terminal, recorded != 0, attempts, outcome, idempotent != 0, idemKey);
  }

  method ReadView(r: BinaryReader) returns (good: bool, v: Idempotency.EntryView)
    requires r.Valid() && r.ok
    modifies r
    ensures r.Valid()
    ensures good == ParseView(old(r.Rest())).Some?
    ensures good ==> ParseView(old(r.Rest())).value.0 == v
  {
    hide ParseU32, ParseU64, ParseId, ParseText;
    var op := r.Id();
    var key := r.Id();
    var hash := r.U64();
    var state := r.U32();
    var metadata := r.Str16();
    good, v := r.ok, Idempotency.EntryView(Idempotency.Key(op, key), hash, state, metadata);
  }

  method ReadHolder(r: BinaryReader) returns (good: bool, h: Ownership.Holder)
    requires r.Valid() && r.ok
    modifies r
    ensures r.Valid()
    ensures good == ParseHolder(old(r.Rest())).Some?
    ensures good ==> ParseHolder(old(r.Rest())).value.0 == h
  {
    hide ParseU32, ParseU64, ParseId;
    good, h := false, Ownership.UNASSIGNED;
    var owner := r.U32();
    if !r.ok || owner >= 9 {
      return;
    }
    var generation := r.U64();
    var boot := r.Id();
    good, h := r.ok, Ownership.Holder(owner, generation, boot);
  }

  // ---------------------------------------------------------------- the store

  class FailureStore {
    var failures: FailureLog
    const ops: Registry.OperationRegistry
    const idem: Idempotency.IdempotencyStore
    const ownership: Ownership.RecoveryOwnership

    ghost predicate Valid()
      reads this
    {
      SoundLog(failures)
    }

    ghost function Value(): StoreValue
      reads this, ops, idem, ownership
    {
      StoreValue(failures, ops.ops, idem.entries, ownership.Value())
    }

    constructor ()
      ensures Valid() && fresh(ops) && fresh(idem) && fresh(ownership)
      ensures Value() == StoreValue(map[], map[], map[], Ownership.UNASSIGNED)
    {
      failures := map[];
      ops := new Registry.OperationRegistry();
      idem := new Idempotency.IdempotencyStore();
      ownership := new Ownership.RecoveryOwnership();
    }

    method AppendFailure(rec: FailureRecord) returns (taken: bool)
      requires Valid()
      modifies this`failures
      ensures Valid()
      ensures (failures, taken) == Append(old(failures), rec)
    {
      if rec.ids.failureId == NULL_ID {
        return false;
      }
      if rec.ids.failureId in failures {
        return false;
      }
      if rec.ids.operation == NULL_ID || rec.ids.attempt == NULL_ID {
        return false;
      }
      if !ValidAuthority(rec.authority) {
        return false;
      }
      failures := failures[rec.ids.failureId := rec];
      return true;
    }

    method HasFailure(id: Uuid) returns (has: bool)
      ensures has <==> id in failures
    {
      return id in failures;
    }

    method FindFailure(id: Uuid) returns (found: Option<FailureRecord>)
      requires Valid()
      ensures found.Some? <==> id in failures
      ensures found.Some? ==> found.value == failures[id] && found.value.ids.failureId == id
    {
      if id in failures {
        return Some(failures[id]);
      }
      return None;
    }

    // ------------------------------------------------------------------- save

    method SaveFailures(out: seq<byte>, order: seq<Uuid>, ghost fs: seq<Frame>) returns (more: seq<byte>)
      requires out == ConcatFrames(fs) && forall k :: k in order ==> k in failures
      ensures more == ConcatFrames(fs + FailureFrames(failures, order))
    {
      hide RecordBytes, FrameBytes, ConcatFrames;
      more := out;
      assert fs + FailureFrames(failures, []) == fs;
      for i := 0 to |order|
        invariant more == ConcatFrames(fs + FailureFrames(failures, order[..i]))
      {
        assert order[i] in order && order[..i + 1][..i] == order[..i];
        var w := new BinaryWriter();
        EncodeFailureRecord(w, failures[order[i]]);
        assert w.buf == RecordBytes(failures[order[i]]);
        var frame := EncodeFrame(K_FAIL, w.buf);
        ghost var so := fs + FailureFrames(failures, order[..i]);
        ConcatLast(so, Frame(K_FAIL, w.buf));
        assert so + [Frame(K_FAIL, w.buf)] == fs + FailureFrames(failures, order[..i + 1]);
        more := more + frame;
      }
      assert order[..|order|] == order;
    }

    method SaveOps(out: seq<byte>, order: seq<Uuid>, ghost fs: seq<Frame>) returns (more: seq<byte>)
      requires out == ConcatFrames(fs) && forall k :: k in order ==> k in ops.ops
      ensures more == ConcatFrames(fs + OpFrames(ops.ops, order))
    {
      hide OpBytes, FrameBytes, ConcatFrames;
      more := out;
      assert fs + OpFrames(ops.ops, []) == fs;
      for i := 0 to |order|
        invariant more == ConcatFrames(fs + OpFrames(ops.ops, order[..i]))
      {
        assert order[i] in order && order[..i + 1][..i] == order[..i];
        var w := new BinaryWriter();
        WriteOp(w, order[i], ops.ops[order[i]]);
        assert w.buf == OpBytes(order[i], ops.ops[order[i]]);
        var frame := EncodeFrame(K_OP, w.buf);
        ghost var so := fs + OpFrames(ops.ops, order[..i]);
        ConcatLast(so, Frame(K_OP, w.buf));
        assert so + [Frame(K_OP, w.buf)] == fs + OpFrames(ops.ops, order[..i + 1]);
        more := more + frame;
      }
      assert order[..|order|] == order;
    }

    method SaveIdem(out: seq<byte>, order: seq<Idempotency.Key>, ghost fs: seq<Frame>) returns (more: seq<byte>)
      requires out == ConcatFrames(fs) && Idempotency.Enumerates(order, idem.entries.Keys)
      ensures more == ConcatFrames(fs + IdemFrames(idem.entries, order))
    {
      hide ViewBytes, FrameBytes, ConcatFrames;
      more := out;
      var views := idem.Collect(order);
      assert fs + IdemFrames(idem.entries, []) == fs;
      for i := 0 to |views|
        invariant more == ConcatFrames(fs + IdemFrames(idem.entries, order[..i]))
      {
        assert order[i] in order && order[..i + 1][..i] == order[..i];
        var w := new BinaryWriter();
        WriteView(w, views[i]);
        assert w.buf == ViewBytes(Idempotency.ViewOf(idem.entries, order[i]));
        var frame := EncodeFrame(K_ID, w.buf);
        ghost var so := fs + IdemFrames(idem.entries, order[..i]);
        ConcatLast(so, Frame(K_ID, w.buf));
        assert so + [Frame(K_ID, w.buf)] == fs + IdemFrames(idem.entries, order[..i + 1]);
        more := more + frame;
      }
      assert order[..|order|] == order;
    }

    method SaveHeader() returns (out: seq<byte>)
      ensures out == ConcatFrames([Frame(K_HEADER,
                       CountsBytes(Count32(|failures|), Count32(|ops.ops|), Count32(|idem.entries|)))])
    {
      hide U16Bytes, U32Bytes, FrameBytes;
      var hw := new BinaryWriter();
      hw.U32(MAGIC);
      hw.U16(VERSION);
      hw.U32(Count32(|failures|));
      hw.U32(Count32(|ops.ops|));
      hw.U32(Count32(|idem.entries|));
      assert [] + U32Bytes(MAGIC) == U32Bytes(MAGIC);
      out := EncodeFrame(K_HEADER, hw.buf);
      ConcatLast([], Frame(K_HEADER, hw.buf));
      assert [] + [Frame(K_HEADER, hw.buf)] == [Frame(K_HEADER, hw.buf)];
    }

    method SaveOwner(out: seq<byte>, ghost fs: seq<Frame>) returns (more: seq<byte>)
      requires out == ConcatFrames(fs)
      ensures more == ConcatFrames(fs + [OwnerFrame(Value())])
    {
      hide U32Bytes, U64Bytes, IdBytes, FrameBytes, ConcatFrames;
      var ow := new BinaryWriter();
      ow.U32(ownership.owner);
      ow.U64(ownership.generation);
      ow.Id(ownership.boot);
      assert [] + U32Bytes(ownership.owner) == U32Bytes(ownership.owner);
      var frame := EncodeFrame(K_OWN, ow.buf);
      ConcatLast(fs, Frame(K_OWN, ow.buf));
      more := out + frame;
    }

    /** The contents of the file that a save writes when the maps happen to be
        iterated in the given orders. */
    method Save(o: Orders) returns (out: seq<byte>)
      requires Enumerates(o, Value())
      ensures out == SnapshotBytes(Value(), o)
    {
      hide CountsBytes, FailureFrames, OpFrames, IdemFrames, ConcatFrames, OwnerFrame, Idempotency.Enumerates;
      out := SaveHeader();
      ghost var header := [Frame(K_HEADER, CountsBytes(Count32(|failures|), Count32(|ops.ops|), Count32(|idem.entries|)))];
      out := SaveFailures(out, o.failures, header);
      ghost var fs := header + FailureFrames(failures, o.failures);
      out := SaveOps(out, o.ops, fs);
      out := SaveIdem(out, o.idem, fs + OpFrames(ops.ops, o.ops));
      out := SaveOwner(out, TableFrames(Value(), o));
    }

    // ------------------------------------------------------------------- load

    /** The frame loop. Everything read is only gathered, except that an ownership
        frame is adopted on the spot. */
    method ReadFrames(data: seq<byte>)
      returns (ok: bool, nfail: u32, nop: u32, nid: u32, frs: seq<FailureRecord>, opids: seq<Uuid>,
               orts: seq<Registry.Runtime>, idents: seq<Idempotency.EntryView>)
      requires data != []
      modifies ownership
      ensures Scan(data, Begin(old(ownership.Value()))) ==
              if ok then Going(Partial(false, nfail, nop, nid, frs, opids, orts, idents, ownership.Value()))
              else Refused(ownership.Value())
    {
      hide ParseFrame, Scan, ParseCounts, ParseRecord, ParseOp, ParseView, ParseHolder;
      ok, nfail, nop, nid, frs, opids, orts, idents := false, 0, 0, 0, [], [], [], [];
      ghost var all := Scan(data, Begin(ownership.Value()));
      var first := true;
      var off := 0;
      assert data[off..] == data;
      while off < |data|
        invariant off <= |data| && (first ==> off == 0)
        invariant all == Scan(data[off..], Partial(first, nfail, nop, nid, frs, opids, orts, idents, ownership.Value()))
      {
        ghost var st := Partial(first, nfail, nop, nid, frs, opids, orts, idents, ownership.Value());
        ScanTurn(data[off..], st);
        var good, f, next := DecodeFrame(data, off);
        if !good {
          return;
        }
        var r := new BinaryReader(f.payload);
        if first {
          good, nfail, nop, nid := ReadCounts(r);
          if !good {
            return;
          }
          first := false;
        } else if f.kind == K_FAIL {
          var rec;
          good, rec := DecodeFailureRecord(r);
          if !good {
            return;
          }
          frs := frs + [rec];
        } else if f.kind == K_OP {
          var op, rt;
          good, op, rt := ReadOp(r);
          if !good {
            return;
          }
          opids, orts := opids + [op], orts + [rt];
        } else if f.kind == K_ID {
          var ev;
          good, ev := ReadView(r);
          if !good {
            return;
          }
          idents := idents + [ev];
        } else if f.kind == K_OWN {
          var h;
          good, h := ReadHolder(r);
          if !good {
            return;
          }
          var _ := ownership.Adopt(h.owner, h.generation, h.boot);
        } else {
          return;
        }
        off := next;
      }
      ok := true;
      assert data[off..] == [] && !first;
      ScanEnd(Partial(first, nfail, nop, nid, frs, opids, orts, idents, ownership.Value()));
    }

    /** The strict validation behind the loop: counts, failure ids, operation ids. */
    method Validate(nfail: u32, nop: u32, nid: u32, frs: seq<FailureRecord>, opids: seq<Uuid>,
                    orts: seq<Registry.Runtime>, idents: seq<Idempotency.EntryView>)
      returns (ok: bool, newfails: FailureLog)
      ensures ok == (|frs| == nfail && |orts| == nop && |idents| == nid && FailureMap(frs).Some? && NoRepeats(opids))
      ensures ok ==> FailureMap(frs) == Some(newfails)
    {
      ok, newfails := false, map[];
      if |frs| != nfail || |orts| != nop || |idents| != nid {
        return;
      }
      for i := 0 to |frs|
        invariant FailureMap(frs[..i]) == Some(newfails)
      {
        assert frs[..i + 1][..i] == frs[..i];
        if frs[i].ids.failureId in newfails {
          RepeatedFailure(frs, i + 1);
          return;
        }
        newfails := newfails[frs[i].ids.failureId := frs[i]];
      }
      assert frs[..|frs|] == frs;
      var seen := {};
      for i := 0 to |opids|
        invariant forall u :: u in seen <==> u in opids[..i]
        invariant NoRepeats(opids[..i])
      {
        if opids[i] in seen {
          return;
        }
        seen := seen + {opids[i]};
      }
      ok := true;
    }

    /** The commit: everything is cleared, the ownership included, and refilled. */
    method Commit(newfails: FailureLog, opids: seq<Uuid>, orts: seq<Registry.Runtime>, idents: seq<Idempotency.EntryView>)
      requires |opids| == |orts|
      modifies this`failures, ops, idem, ownership
      ensures Value() == StoreValue(newfails, OpTable(opids, orts), EntryMap(idents), Ownership.UNASSIGNED)
    {
      Clear();
      RefillFailures(newfails);
      RefillOps(opids, orts);
      RefillIdem(idents);
    }

    /** The new map is copied in whatever order it is iterated. */
    method RefillFailures(newfails: FailureLog)
      requires failures == map[]
      modifies this`failures
      ensures failures == newfails
    {
      var left := newfails.Keys;
      while left != {}
        invariant left <= newfails.Keys
        invariant failures == map k | k in newfails && k !in left :: newfails[k]
        decreases |left|
      {
        var k :| k in left;
        failures := failures[k := newfails[k]];
        left := left - {k};
      }
    }

    method RefillOps(opids: seq<Uuid>, orts: seq<Registry.Runtime>)
      requires |opids| == |orts| && ops.ops == map[]
      modifies ops
      ensures ops.ops == OpTable(opids, orts)
    {
      hide Registry.Step;
      for i := 0 to |opids|
        invariant ops.ops == OpTable(opids[..i], orts[..i])
      {
        assert opids[..i + 1][..i] == opids[..i] && orts[..i + 1][..i] == orts[..i];
        var _ := ops.Restore(opids[i], orts[i]);
      }
      assert opids[..|opids|] == opids && orts[..|orts|] == orts;
    }

    method RefillIdem(idents: seq<Idempotency.EntryView>)
      requires idem.entries == map[]
      modifies idem
      ensures idem.entries == EntryMap(idents)
    {
      for i := 0 to |idents|
        invariant idem.entries == EntryMap(idents[..i])
      {
        assert idents[..i + 1][..i] == idents[..i];
        var ev := idents[i];
        idem.Restore(ev.key, ev.hash, ev.state, ev.metadata);
      }
      assert idents[..|idents|] == idents;
    }

    /** Loads the contents of a snapshot file. A rejected file leaves the three tables
        as they were, but not always the ownership. */
    method Load(data: seq<byte>) returns (ok: bool)
      requires Valid()
      modifies this`failures, ops, idem, ownership
      ensures Valid()
      ensures match LoadBytes(data, old(ownership.Value()))
              case Loaded(fails, table, entries) => ok && Value() == StoreValue(fails, table, entries, Ownership.UNASSIGNED)
              case Rejected(own) => !ok && Value() == old(Value()).(own := own)
    {
      hide Scan, FailureMap, OpTable, EntryMap, NoRepeats;
      if data == [] {
        return false;
      }
      ghost var own := ownership.Value();
      var nfail, nop, nid, frs, opids, orts, idents;
      ok, nfail, nop, nid, frs, opids, orts, idents := ReadFrames(data);
      if !ok {
        return;
      }
      ScanGathers(data, Begin(own));
      var newfails;
      ok, newfails := Validate(nfail, nop, nid, frs, opids, orts, idents);
      if !ok {
        return;
      }
      FailureMapSound(frs);
      Commit(newfails, opids, orts, idents);
    }

    method Clear()
      modifies this`failures, ops, idem, ownership
      ensures Valid()
      ensures Value() == StoreValue(map[], map[], map[], Ownership.UNASSIGNED)
    {
      failures := map[];
      ops.Clear();
      idem.Clear();
      ownership.Reset();
    }
  }

  // ------------------------------------------------------------ lemmas for load

  lemma ScanTurn(s: seq<byte>, st: Partial)
    requires s != []
    ensures ParseFrame(s).None? ==> Scan(s, st) == Refused(st.own)
    ensures ParseFrame(s).Some? ==>
              Scan(s, st) == Resume(Absorb(st, ParseFrame(s).value.0), ParseFrame(s).value.1)
  {
    hide ParseFrame, Absorb;
  }

  lemma ScanEnd(st: Partial)
    ensures Scan([], st) == Going(st)
  {
  }

  lemma {:induction false} RepeatedFailure(rs: seq<FailureRecord>, i: nat)
    requires i <= |rs| && FailureMap(rs[..i]).None?
    ensures FailureMap(rs).None?
  {
    if i < |rs| {
      assert rs[..|rs| - 1][..i] == rs[..i];
      RepeatedFailure(rs[..|rs| - 1], i);
    } else {
      assert rs[..i] == rs;
    }
  }

  /** What load gathers: authorities that passed validation, and one runtime per id. */
  predicate SoundPartial(st: Partial) {
    |st.opids| == |st.runtimes| && forall i :: 0 <= i < |st.failures| ==> ValidAuthority(st.failures[i].authority)
  }

  lemma AbsorbGathers(st: Partial, f: Frame)
    requires SoundPartial(st) && Absorb(st, f).Going?
    ensures SoundPartial(Absorb(st, f).st)
  {
    hide ParseCounts, ParseRecord, ParseOp, ParseView, ParseHolder, ValidAuthority;
    if !st.first && f.kind == K_FAIL {
      ParsedAuthority(f.payload);
    }
  }

  lemma ParsedAuthority(s: seq<byte>)
    requires ParseRecord(s).Some?
    ensures ValidAuthority(ParseRecord(s).value.0.authority)
  {
    hide ParseIdentity, ParseCause, ParseEffects, ParseEnvelope, ParseHandling, ParseId, ParseU32, ParseIds, ValidAuthority;
  }

  lemma {:induction false} ScanGathers(s: seq<byte>, st: Partial)
    requires SoundPartial(st) && Scan(s, st).Going?
    ensures SoundPartial(Scan(s, st).st)
    decreases |s|
  {
    hide ParseFrame, Absorb, SoundPartial;
    if s != [] {
      var (f, rest) := ParseFrame(s).value;
      FrameSpells(s);
      AbsorbGathers(st, f);
      ScanGathers(rest, Absorb(st, f).st);
    }
  }

  /** The map built from records with valid authorities is a sound log. */
  lemma {:induction false} FailureMapSound(rs: seq<FailureRecord>)
    requires FailureMap(rs).Some? && forall i :: 0 <= i < |rs| ==> ValidAuthority(rs[i].authority)
    ensures SoundLog(FailureMap(rs).value)
  {
    hide ValidAuthority;
    if rs != [] {
      FailureMapSound(rs[..|rs| - 1]);
    }
  }
}

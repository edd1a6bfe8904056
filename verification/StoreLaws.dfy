/** What gets into the store at all, said in the fields of the envelopes and records. */
module StoreLaws {
  import opened Bytes
  import opened Ids
  import opened Authority
  import opened Codec
  import opened FailureRecords
  import opened Frames
  import opened Snapshot
  import opened SnapshotPayloads
  import opened SnapshotLaws
  import opened Store
  import Registry
  import RegistryLaws
  import Ownership

  /** An authority that cannot be: a boot without an epoch, an attempt without a generation. */
  predicate Malformed(e: Envelope) {
    (e.boot != NULL_ID && e.epoch == 0) || (e.attempt != NULL_ID && e.attemptGen == 0)
  }

  /** A record is taken exactly if it is identified, new, and not under a malformed
      authority; then it stands in the log under its id, and no other record moved. */
  lemma TakenExactly(m: FailureLog, r: FailureRecord)
    ensures var (m', taken) := Append(m, r);
            var id := r.ids.failureId;
            && (taken <==>
                  && id != NULL_ID && r.ids.operation != NULL_ID && r.ids.attempt != NULL_ID
                  && id !in m && !Malformed(r.authority))
            && (taken ==> id in m' && m'[id] == r)
            && (forall k :: k in m ==> k in m' && m'[k] == m[k])
            && (forall k :: k in m' ==> k in m || (taken && k == id))
  {
  }

  /** No log that is reached by appending holds a malformed authority. */
  lemma {:induction false} AppendedAreWellFormed(rs: seq<FailureRecord>)
    ensures forall k :: k in AppendAll(map[], rs) ==> !Malformed(AppendAll(map[], rs)[k].authority)
  {
    hide Append;
    if rs != [] {
      var m := AppendAll(map[], rs[..|rs| - 1]);
      AppendedAreWellFormed(rs[..|rs| - 1]);
      TakenExactly(m, rs[|rs| - 1]);
    }
  }

  /** What the parser of a file has gathered is under well-formed authorities, and every
      failure record in bounds. */
  ghost predicate WellFormedPartial(st: Partial) {
    && (forall i :: 0 <= i < |st.failures| ==> WellFormedRecord(st.failures[i]))
    && (forall i :: 0 <= i < |st.runtimes| ==> WellFormedRuntime(st.runtimes[i]))
  }

  predicate WellFormedRecord(r: FailureRecord) {
    !Malformed(r.authority) && |r.dependencies| <= 4096
  }

  predicate WellFormedRuntime(rt: Registry.Runtime) {
    !Malformed(rt.authority) && !Malformed(rt.terminal)
  }

  lemma ParsedRecord(s: seq<byte>)
    requires ParseRecord(s).Some?
    ensures WellFormedRecord(ParseRecord(s).value.0)
  {
    hide ParseRecord, ClipRecord, RecordBytes;
    RecordSpells(s);
  }

  lemma ParsedRuntime(s: seq<byte>)
    requires ParseOp(s).Some?
    ensures WellFormedRuntime(ParseOp(s).value.0.1)
  {
    hide ParseU32, ParseId, ParseBool, ParseText, ParseEnvelope;
  }

  lemma AbsorbWellFormed(st: Partial, f: Frame)
    requires WellFormedPartial(st) && Absorb(st, f).Going?
    ensures WellFormedPartial(Absorb(st, f).st)
  {
    hide ParseCounts, ParseRecord, ParseOp, ParseView, ParseHolder, WellFormedRecord, WellFormedRuntime;
    if !st.first && f.kind == K_FAIL {
      ParsedRecord(f.payload);
    } else if !st.first && f.kind == K_OP {
      ParsedRuntime(f.payload);
    }
  }

  lemma {:induction false} ScanWellFormed(s: seq<byte>, st: Partial)
    requires WellFormedPartial(st) && Scan(s, st).Going?
    ensures WellFormedPartial(Scan(s, st).st)
    decreases |s|
  {
    hide ParseFrame, Absorb, WellFormedPartial;
    if s != [] {
      var (f, rest) := ParseFrame(s).value;
      FrameSpells(s);
      AbsorbWellFormed(st, f);
      ScanWellFormed(rest, Absorb(st, f).st);
    }
  }

  lemma {:induction false} MapWellFormed(rs: seq<FailureRecord>)
    requires FailureMap(rs).Some? && forall i :: 0 <= i < |rs| ==> WellFormedRecord(rs[i])
    ensures forall k :: k in FailureMap(rs).value ==> WellFormedRecord(FailureMap(rs).value[k])
  {
    hide WellFormedRecord;
    if rs != [] {
      MapWellFormed(rs[..|rs| - 1]);
    }
  }

  lemma {:induction false} TableWellFormed(ids: seq<Uuid>, rts: seq<Registry.Runtime>)
    requires |ids| == |rts| && forall i :: 0 <= i < |rts| ==> WellFormedRuntime(rts[i])
    ensures forall k :: k in OpTable(ids, rts) ==> WellFormedRuntime(OpTable(ids, rts)[k])
  {
    hide WellFormedRuntime, Registry.Step;
    if ids != [] {
      var n := |ids| - 1;
      TableWellFormed(ids[..n], rts[..n]);
      RegistryLaws.RestoresExactly(OpTable(ids[..n], rts[..n]), ids[n], rts[n]);
    }
  }

  /** Neither does any log or table that is reached by loading a file, whatever the
      file: no boot without an epoch, no attempt without a generation. */
  lemma LoadedAreWellFormed(data: seq<byte>, own: Ownership.Holder)
    requires LoadBytes(data, own).Loaded?
    ensures var r := LoadBytes(data, own);
            && (forall k :: k in r.failures ==>
                  !Malformed(r.failures[k].authority) && |r.failures[k].dependencies| <= 4096)
            && (forall k :: k in r.ops ==> !Malformed(r.ops[k].authority) && !Malformed(r.ops[k].terminal))
  {
    hide Scan, FailureMap, OpTable, EntryMap, NoRepeats, Malformed;
    ScanWellFormed(data, Begin(own));
    var st := Scan(data, Begin(own)).st;
    MapWellFormed(st.failures);
    TableWellFormed(st.opids, st.runtimes);
  }

  /** Which stores a snapshot gives back: those without a malformed authority and with at
      most 4096 dependencies in each record. */
  lemma LoadableExactly(v: StoreValue)
    ensures Loadable(v) <==>
              && (forall k :: k in v.failures ==>
                    !Malformed(v.failures[k].authority) && |v.failures[k].dependencies| <= 4096)
              && (forall k :: k in v.ops ==> !Malformed(v.ops[k].authority) && !Malformed(v.ops[k].terminal))
  {
  }

  /** So a loaded operation that is held by a boot has an epoch, and no report on it
      without one is ever accepted. */
  lemma HeldNeedsEpoch(data: seq<byte>, own: Ownership.Holder, c: Registry.Call)
    requires LoadBytes(data, own).Loaded? && RegistryLaws.Fenced(c) && c.env.epoch == 0
    requires var t := LoadBytes(data, own).ops;
             c.op in t && !t[c.op].recorded && t[c.op].authority.boot != NULL_ID
    ensures var t := LoadBytes(data, own).ops;
            Registry.Step(t, c) == (t, Registry.STALE_REJECTED)
  {
    hide LoadBytes, Registry.Step;
    LoadedAreWellFormed(data, own);
    RegistryLaws.NoLateCallCounts(LoadBytes(data, own).ops, c);
  }
}

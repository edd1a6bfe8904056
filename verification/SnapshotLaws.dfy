/** Crash transparency, truncation, corruption and parser soundness of the snapshot. */
module SnapshotLaws {
  import opened Bytes
  import opened Ids
  import opened Authority
  import opened Checksum
  import opened Codec
  import opened FailureRecords
  import opened Frames
  import opened Snapshot
  import opened SnapshotPayloads
  import Registry
  import Idempotency
  import Ownership

  // --------------------------------------------- scanning a list of whole frames

  predicate AllSized(fs: seq<Frame>) {
    forall i :: 0 <= i < |fs| ==> Sized(fs[i])
  }

  /** The frames absorbed in order, until one is refused. */
  function Fold(st: Partial, fs: seq<Frame>): Progress {
    if fs == [] then Going(st)
    else
      match Fold(st, fs[..|fs| - 1])
      case Refused(own) => Refused(own)
      case Going(st') => Absorb(st', fs[|fs| - 1])
  }

  function Resume(p: Progress, t: seq<byte>): Progress {
    match p
    case Refused(own) => Refused(own)
    case Going(st) => Scan(t, st)
  }

  lemma ScanOne(f: Frame, t: seq<byte>, st: Partial)
    requires Sized(f)
    ensures Scan(FrameBytes(f) + t, st) == Resume(Absorb(st, f), t)
  {
    hide Absorb, FrameBytes, ParseFrame;
    FrameReads(f, t);
  }

  /** Scanning the bytes of whole frames absorbs the frames and goes on behind them. */
  lemma {:induction false} ScanFrames(fs: seq<Frame>, t: seq<byte>, st: Partial)
    requires AllSized(fs)
    ensures Scan(ConcatFrames(fs) + t, st) == Resume(Fold(st, fs), t)
  {
    if fs == [] {
      assert ConcatFrames(fs) + t == t;
    } else {
      hide Scan, Absorb, FrameBytes;
      var front, f := fs[..|fs| - 1], fs[|fs| - 1];
      ScanFrames(front, FrameBytes(f) + t, st);
      Concat(ConcatFrames(front), FrameBytes(f), t);
      if Fold(st, front).Going? {
        ScanOne(f, t, Fold(st, front).st);
      }
    }
  }

  lemma FoldLast(st: Partial, fs: seq<Frame>, f: Frame)
    ensures Fold(st, fs + [f]) == match Fold(st, fs)
                                  case Refused(own) => Refused(own)
                                  case Going(st') => Absorb(st', f)
  {
    assert (fs + [f])[..|fs|] == fs;
  }

  lemma {:induction false} FoldAppend(st: Partial, a: seq<Frame>, b: seq<Frame>)
    ensures Fold(st, a + b) == match Fold(st, a)
                               case Refused(own) => Refused(own)
                               case Going(st') => Fold(st', b)
  {
    hide Absorb;
    if b == [] {
      assert a + b == a;
    } else {
      var n := |b| - 1;
      FoldAppend(st, a, b[..n]);
      assert (a + b)[..|a + b| - 1] == a + b[..n];
    }
  }

  // ------------------------------------------------------------ the four sections

  function Records(m: FailureLog, order: seq<Uuid>): (rs: seq<FailureRecord>)
    requires forall k :: k in order ==> k in m
    ensures |rs| == |order|
  {
    if order == [] then []
    else Records(m, order[..|order| - 1]) + [ClipRecord(m[order[|order| - 1]])]
  }

  predicate AllDecodable(m: FailureLog, order: seq<Uuid>)
    requires forall k :: k in order ==> k in m
  {
    forall i :: 0 <= i < |order| ==> Decodable(m[order[i]])
  }

  lemma RecordRead(r: FailureRecord)
    requires |RecordBytes(r)| < 0x1_0000_0000
    ensures ParseRecord(RecordBytes(r)) == if Decodable(r) then Some((ClipRecord(r), [])) else None
  {
    hide ParseRecord, ClipRecord, Decodable;
    assert |r.dependencies| < 0x1_0000_0000 by {
      RecordHolds(r);
    }
    RecordReads(r, []);
    assert RecordBytes(r) + [] == RecordBytes(r);
  }

  lemma RecordHolds(r: FailureRecord)
    ensures |RecordBytes(r)| >= |r.dependencies|
  {
  }

  lemma AbsorbFailure(st: Partial, r: FailureRecord)
    requires !st.first && |RecordBytes(r)| < 0x1_0000_0000
    ensures Absorb(st, Frame(K_FAIL, RecordBytes(r))) ==
            if Decodable(r) then Going(st.(failures := st.failures + [ClipRecord(r)])) else Refused(st.own)
  {
    hide RecordBytes, ParseRecord, ClipRecord, Decodable;
    RecordRead(r);
  }

  lemma LastRecord(m: FailureLog, order: seq<Uuid>, n: nat)
    requires (forall k :: k in order ==> k in m) && |order| == n + 1
    ensures FailureFrames(m, order) == FailureFrames(m, order[..n]) + [Frame(K_FAIL, RecordBytes(m[order[n]]))]
    ensures Records(m, order) == Records(m, order[..n]) + [ClipRecord(m[order[n]])]
    ensures AllDecodable(m, order) <==> AllDecodable(m, order[..n]) && Decodable(m[order[n]])
  {
    hide RecordBytes, ClipRecord, Decodable;
  }

  lemma FoldLastFailure(st: Partial, m: FailureLog, order: seq<Uuid>, n: nat)
    requires (forall k :: k in order ==> k in m) && |order| == n + 1
    requires !st.first && |RecordBytes(m[order[n]])| < 0x1_0000_0000
    requires Fold(st, FailureFrames(m, order[..n])) ==
             if AllDecodable(m, order[..n]) then Going(st.(failures := st.failures + Records(m, order[..n])))
             else Refused(st.own)
    ensures Fold(st, FailureFrames(m, order)) ==
            if AllDecodable(m, order) then Going(st.(failures := st.failures + Records(m, order)))
            else Refused(st.own)
  {
    hide *;
    var r, rs := m[order[n]], Records(m, order[..n]);
    LastRecord(m, order, n);
    FoldLast(st, FailureFrames(m, order[..n]), Frame(K_FAIL, RecordBytes(r)));
    AbsorbFailure(st.(failures := st.failures + rs), r);
    assert st.failures + (rs + [ClipRecord(r)]) == (st.failures + rs) + [ClipRecord(r)];
  }

  lemma {:induction false} FoldFailures(st: Partial, m: FailureLog, order: seq<Uuid>)
    requires forall k :: k in order ==> k in m && |RecordBytes(m[k])| < 0x1_0000_0000
    requires !st.first
    ensures Fold(st, FailureFrames(m, order)) ==
            if AllDecodable(m, order) then Going(st.(failures := st.failures + Records(m, order)))
            else Refused(st.own)
  {
    hide RecordBytes, Absorb;
    if order == [] {
      assert st.failures + Records(m, order) == st.failures;
    } else {
      FoldFailures(st, m, order[..|order| - 1]);
      FoldLastFailure(st, m, order, |order| - 1);
    }
  }

  function Runtimes(t: Registry.Table, order: seq<Uuid>): (rs: seq<Registry.Runtime>)
    requires forall k :: k in order ==> k in t
    ensures |rs| == |order|
  {
    if order == [] then []
    else Runtimes(t, order[..|order| - 1]) + [ClipRuntime(t[order[|order| - 1]])]
  }

  predicate AllValid(t: Registry.Table, order: seq<Uuid>)
    requires forall k :: k in order ==> k in t
  {
    forall i :: 0 <= i < |order| ==> ValidRuntime(t[order[i]])
  }

  lemma AbsorbOp(st: Partial, op: Uuid, rt: Registry.Runtime)
    requires !st.first
    ensures Absorb(st, Frame(K_OP, OpBytes(op, rt))) ==
            if ValidRuntime(rt)
            then Going(st.(opids := st.opids + [op], runtimes := st.runtimes + [ClipRuntime(rt)]))
            else Refused(st.own)
  {
    hide OpBytes, ParseOp, ClipRuntime, ValidRuntime;
    OpRead(op, rt);
  }

  lemma LastOp(t: Registry.Table, order: seq<Uuid>, n: nat)
    requires (forall k :: k in order ==> k in t) && |order| == n + 1
    ensures OpFrames(t, order) == OpFrames(t, order[..n]) + [Frame(K_OP, OpBytes(order[n], t[order[n]]))]
    ensures Runtimes(t, order) == Runtimes(t, order[..n]) + [ClipRuntime(t[order[n]])]
    ensures AllValid(t, order) <==> AllValid(t, order[..n]) && ValidRuntime(t[order[n]])
  {
    hide OpBytes, ClipRuntime, ValidRuntime;
  }

  lemma FoldLastOp(st: Partial, t: Registry.Table, order: seq<Uuid>, n: nat)
    requires (forall k :: k in order ==> k in t) && |order| == n + 1 && !st.first
    requires Fold(st, OpFrames(t, order[..n])) ==
             if AllValid(t, order[..n])
             then Going(st.(opids := st.opids + order[..n], runtimes := st.runtimes + Runtimes(t, order[..n])))
             else Refused(st.own)
    ensures Fold(st, OpFrames(t, order)) ==
            if AllValid(t, order)
            then Going(st.(opids := st.opids + order, runtimes := st.runtimes + Runtimes(t, order)))
            else Refused(st.own)
  {
    hide *;
    var front, op := order[..n], order[n];
    var rt, rts := t[op], Runtimes(t, front);
    LastOp(t, order, n);
    FoldLast(st, OpFrames(t, front), Frame(K_OP, OpBytes(op, rt)));
    AbsorbOp(st.(opids := st.opids + front, runtimes := st.runtimes + rts), op, rt);
    assert st.opids + order == (st.opids + front) + [op];
    assert st.runtimes + (rts + [ClipRuntime(rt)]) == (st.runtimes + rts) + [ClipRuntime(rt)];
  }

  lemma {:induction false} FoldOps(st: Partial, t: Registry.Table, order: seq<Uuid>)
    requires forall k :: k in order ==> k in t
    requires !st.first
    ensures Fold(st, OpFrames(t, order)) ==
            if AllValid(t, order)
            then Going(st.(opids := st.opids + order, runtimes := st.runtimes + Runtimes(t, order)))
            else Refused(st.own)
  {
    if order == [] {
      assert st.opids + order == st.opids && st.runtimes + Runtimes(t, order) == st.runtimes;
    } else {
      FoldOps(st, t, order[..|order| - 1]);
      FoldLastOp(st, t, order, |order| - 1);
    }
  }

  function ClippedView(m: Idempotency.Entries, k: Idempotency.Key): Idempotency.EntryView
    requires k in m
  {
    Idempotency.EntryView(k, m[k].hash, m[k].state, Clip(m[k].metadata))
  }

  function Views(m: Idempotency.Entries, order: seq<Idempotency.Key>): (vs: seq<Idempotency.EntryView>)
    requires forall k :: k in order ==> k in m
    ensures |vs| == |order|
  {
    if order == [] then []
    else Views(m, order[..|order| - 1]) + [ClippedView(m, order[|order| - 1])]
  }

  lemma AbsorbView(st: Partial, m: Idempotency.Entries, k: Idempotency.Key)
    requires !st.first && k in m
    ensures Absorb(st, Frame(K_ID, ViewBytes(Idempotency.ViewOf(m, k))))
            == Going(st.(views := st.views + [ClippedView(m, k)]))
  {
    hide ViewBytes, ParseView, Clip;
    ViewRead(Idempotency.ViewOf(m, k));
  }

  lemma LastView(m: Idempotency.Entries, order: seq<Idempotency.Key>, n: nat)
    requires (forall k :: k in order ==> k in m) && |order| == n + 1
    ensures IdemFrames(m, order)
            == IdemFrames(m, order[..n]) + [Frame(K_ID, ViewBytes(Idempotency.ViewOf(m, order[n])))]
    ensures Views(m, order) == Views(m, order[..n]) + [ClippedView(m, order[n])]
  {
    hide ViewBytes, ClippedView;
  }

  lemma FoldLastView(st: Partial, m: Idempotency.Entries, order: seq<Idempotency.Key>, n: nat)
    requires (forall k :: k in order ==> k in m) && |order| == n + 1 && !st.first
    requires Fold(st, IdemFrames(m, order[..n])) == Going(st.(views := st.views + Views(m, order[..n])))
    ensures Fold(st, IdemFrames(m, order)) == Going(st.(views := st.views + Views(m, order)))
  {
    hide *;
    var front, k := order[..n], order[n];
    LastView(m, order, n);
    FoldLast(st, IdemFrames(m, front), Frame(K_ID, ViewBytes(Idempotency.ViewOf(m, k))));
    AbsorbView(st.(views := st.views + Views(m, front)), m, k);
    assert st.views + (Views(m, front) + [ClippedView(m, k)]) == (st.views + Views(m, front)) + [ClippedView(m, k)];
  }

  lemma {:induction false} FoldIdem(st: Partial, m: Idempotency.Entries, order: seq<Idempotency.Key>)
    requires forall k :: k in order ==> k in m
    requires !st.first
    ensures Fold(st, IdemFrames(m, order)) == Going(st.(views := st.views + Views(m, order)))
  {
    if order == [] {
      assert st.views + Views(m, order) == st.views;
    } else {
      FoldIdem(st, m, order[..|order| - 1]);
      FoldLastView(st, m, order, |order| - 1);
    }
  }

  lemma FoldHeader(own: Ownership.Holder, fails: u32, ops: u32, ids: u32)
    ensures Fold(Begin(own), [Frame(K_HEADER, CountsBytes(fails, ops, ids))])
            == Going(Begin(own).(first := false, nfail := fails, nop := ops, nid := ids))
  {
    hide ParseCounts, CountsBytes;
    CountsRead(fails, ops, ids);
    var fs := [Frame(K_HEADER, CountsBytes(fails, ops, ids))];
    assert fs[..0] == [];
  }

  // ------------------------------------------------------- rebuilding the tables

  function ClipFailures(m: FailureLog): FailureLog {
    map k | k in m :: ClipRecord(m[k])
  }

  function ClipOps(t: Registry.Table): Registry.Table {
    map k | k in t :: ClipRuntime(t[k])
  }

  function ClipIdem(m: Idempotency.Entries): Idempotency.Entries {
    map k | k in m :: EntryOf(ClippedView(m, k))
  }

  /** Every record is filed under its own id, as append and load both do. */
  predicate Keyed(m: FailureLog) {
    forall k :: k in m ==> m[k].ids.failureId == k
  }

  lemma LastIsNew<T>(order: seq<T>, n: nat)
    requires NoRepeats(order) && |order| == n + 1
    ensures order[n] !in order[..n] && NoRepeats(order[..n])
    ensures forall x :: x in order <==> x in order[..n] || x == order[n]
  {
    assert order == order[..n] + [order[n]];
  }

  function ClippedOn(m: FailureLog, order: seq<Uuid>): FailureLog
    requires forall k :: k in order ==> k in m
  {
    map k | k in order :: ClipRecord(m[k])
  }

  lemma ClippedOnLast(m: FailureLog, order: seq<Uuid>, n: nat)
    requires (forall k :: k in order ==> k in m) && NoRepeats(order) && |order| == n + 1
    ensures order[n] !in ClippedOn(m, order[..n])
    ensures ClippedOn(m, order) == ClippedOn(m, order[..n])[order[n] := ClipRecord(m[order[n]])]
  {
    hide ClipRecord;
    LastIsNew(order, n);
  }

  lemma RebuildLast(m: FailureLog, order: seq<Uuid>, n: nat)
    requires (forall k :: k in order ==> k in m) && NoRepeats(order) && |order| == n + 1
    requires m[order[n]].ids.failureId == order[n]
    requires FailureMap(Records(m, order[..n])) == Some(ClippedOn(m, order[..n]))
    ensures FailureMap(Records(m, order)) == Some(ClippedOn(m, order))
  {
    hide Records, Clip, ClippedOn, RecordBytes, FailureFrames, Decodable;
    LastRecord(m, order, n);
    ClippedOnLast(m, order, n);
    assert Records(m, order)[..n] == Records(m, order[..n]);
  }

  lemma {:induction false} FailureMapRebuilt(m: FailureLog, order: seq<Uuid>)
    requires Keyed(m) && NoRepeats(order) && forall k :: k in order ==> k in m
    ensures FailureMap(Records(m, order)) == Some(ClippedOn(m, order))
  {
    hide ClipRecord;
    if order != [] {
      var n := |order| - 1;
      LastIsNew(order, n);
      FailureMapRebuilt(m, order[..n]);
      RebuildLast(m, order, n);
    }
  }

  lemma {:induction false} OpTableRebuilt(t: Registry.Table, order: seq<Uuid>)
    requires NoRepeats(order) && forall k :: k in order ==> k in t
    ensures OpTable(order, Runtimes(t, order)) == map k | k in order :: ClipRuntime(t[k])
  {
    hide ClipRuntime, Registry.Apply;
    if order != [] {
      var n := |order| - 1;
      LastIsNew(order, n);
      OpTableRebuilt(t, order[..n]);
      assert Runtimes(t, order)[..n] == Runtimes(t, order[..n]);
    }
  }

  lemma {:induction false} EntryMapRebuilt(m: Idempotency.Entries, order: seq<Idempotency.Key>)
    requires NoRepeats(order) && forall k :: k in order ==> k in m
    ensures EntryMap(Views(m, order)) == map k | k in order :: EntryOf(ClippedView(m, k))
  {
    if order != [] {
      var n := |order| - 1;
      LastIsNew(order, n);
      EntryMapRebuilt(m, order[..n]);
      assert Views(m, order)[..n] == Views(m, order[..n]);
    }
  }

  lemma {:induction false} EnumerationSize<K(!new)>(order: seq<K>, keys: set<K>)
    requires Idempotency.Enumerates(order, keys)
    ensures |order| == |keys|
  {
    if order == [] {
      assert keys == {};
    } else {
      var n := |order| - 1;
      var front, k := order[..n], order[n];
      assert k !in front;
      assert forall x :: x in order <==> x in front || x == k;
      EnumerationSize(front, keys - {k});
    }
  }

  // ------------------------------------------------------------ crash transparency

  /** What the model assumes of the sizes: tables and payloads fit their 32-bit fields. */
  ghost predicate Storable(v: StoreValue) {
    && Keyed(v.failures)
    && |v.failures| < 0x1_0000_0000 && |v.ops| < 0x1_0000_0000 && |v.idem| < 0x1_0000_0000
    && forall k :: k in v.failures ==> |RecordBytes(v.failures[k])| < 0x1_0000_0000
  }

  /** Every authority is valid and no record has more than 4096 dependencies. */
  ghost predicate Loadable(v: StoreValue) {
    && (forall k :: k in v.failures ==> Decodable(v.failures[k]))
    && (forall k :: k in v.ops ==> ValidRuntime(v.ops[k]))
  }

  /** What the tables contribute, starting from a given ownership. */
  function Gathered(v: StoreValue, o: Orders, own: Ownership.Holder): Partial
    requires Lists(o, v)
  {
    Partial(false, Count32(|v.failures|), Count32(|v.ops|), Count32(|v.idem|),
            Records(v.failures, o.failures), o.ops, Runtimes(v.ops, o.ops), Views(v.idem, o.idem), own)
  }

  lemma {:induction false} FailureFramesSized(m: FailureLog, order: seq<Uuid>)
    requires forall k :: k in order ==> k in m && |RecordBytes(m[k])| < 0x1_0000_0000
    ensures AllSized(FailureFrames(m, order))
  {
    hide RecordBytes;
    if order != [] {
      FailureFramesSized(m, order[..|order| - 1]);
    }
  }

  lemma {:induction false} OpFramesSized(t: Registry.Table, order: seq<Uuid>)
    requires forall k :: k in order ==> k in t
    ensures AllSized(OpFrames(t, order))
  {
    if order != [] {
      OpFramesSized(t, order[..|order| - 1]);
    }
  }

  lemma {:induction false} IdemFramesSized(m: Idempotency.Entries, order: seq<Idempotency.Key>)
    requires forall k :: k in order ==> k in m
    ensures AllSized(IdemFrames(m, order))
  {
    if order != [] {
      IdemFramesSized(m, order[..|order| - 1]);
    }
  }

  lemma TableFramesSized(v: StoreValue, o: Orders)
    requires Storable(v) && Enumerates(o, v)
    ensures AllSized(TableFrames(v, o)) && Sized(OwnerFrame(v))
  {
    hide RecordBytes, CountsBytes, HolderBytes, FailureFrames, OpFrames, IdemFrames;
    FailureFramesSized(v.failures, o.failures);
    OpFramesSized(v.ops, o.ops);
    IdemFramesSized(v.idem, o.idem);
  }

  /** The three sections after the header. */
  lemma FoldSections(st: Partial, v: StoreValue, o: Orders)
    requires forall k :: k in o.failures ==> k in v.failures && |RecordBytes(v.failures[k])| < 0x1_0000_0000
    requires forall k :: k in o.ops ==> k in v.ops
    requires forall k :: k in o.idem ==> k in v.idem
    requires !st.first && st.failures == [] && st.opids == [] && st.runtimes == [] && st.views == []
    ensures Fold(st, FailureFrames(v.failures, o.failures) + OpFrames(v.ops, o.ops) + IdemFrames(v.idem, o.idem))
            == if AllDecodable(v.failures, o.failures) && AllValid(v.ops, o.ops)
               then Going(st.(failures := Records(v.failures, o.failures), opids := o.ops,
                              runtimes := Runtimes(v.ops, o.ops), views := Views(v.idem, o.idem)))
               else Refused(st.own)
  {
    hide *;
    var fails, ops, ids := FailureFrames(v.failures, o.failures), OpFrames(v.ops, o.ops), IdemFrames(v.idem, o.idem);
    var rs, rts, vs := Records(v.failures, o.failures), Runtimes(v.ops, o.ops), Views(v.idem, o.idem);
    FoldAppend(st, fails, ops);
    FoldAppend(st, fails + ops, ids);
    FoldFailures(st, v.failures, o.failures);
    assert [] + rs == rs && [] + o.ops == o.ops && [] + rts == rts && [] + vs == vs;
    var st1 := st.(failures := rs);
    FoldOps(st1, v.ops, o.ops);
    FoldIdem(st1.(opids := o.ops, runtimes := rts), v.idem, o.idem);
  }

  lemma TableFrameParts(v: StoreValue, o: Orders)
    requires Enumerates(o, v)
    ensures var header := Frame(K_HEADER, CountsBytes(Count32(|v.failures|), Count32(|v.ops|), Count32(|v.idem|)));
            TableFrames(v, o) ==
            [header]
            + (FailureFrames(v.failures, o.failures) + OpFrames(v.ops, o.ops) + IdemFrames(v.idem, o.idem))
  {
    hide CountsBytes, FailureFrames, OpFrames, IdemFrames;
  }

  lemma FoldTables(v: StoreValue, o: Orders, own: Ownership.Holder)
    requires Storable(v) && Enumerates(o, v)
    ensures Fold(Begin(own), TableFrames(v, o))
            == if Loadable(v) then Going(Gathered(v, o, own)) else Refused(own)
  {
    hide Fold, TableFrames, FailureFrames, OpFrames, IdemFrames, Records, Runtimes, Views, AllDecodable, AllValid;
    hide CountsBytes, Loadable, RecordBytes, Keyed;
    EnumeratedLoadable(v, o);
    var fails, ops, ids := Count32(|v.failures|), Count32(|v.ops|), Count32(|v.idem|);
    FoldHeader(own, fails, ops, ids);
    FoldAppend(Begin(own), [Frame(K_HEADER, CountsBytes(fails, ops, ids))],
               FailureFrames(v.failures, o.failures) + OpFrames(v.ops, o.ops) + IdemFrames(v.idem, o.idem));
    TableFrameParts(v, o);
    FoldSections(Begin(own).(first := false, nfail := fails, nop := ops, nid := ids), v, o);
  }

  lemma EnumeratedLoadable(v: StoreValue, o: Orders)
    requires Enumerates(o, v)
    ensures Loadable(v) <==> AllDecodable(v.failures, o.failures) && AllValid(v.ops, o.ops)
  {
    hide Decodable, ValidRuntime;
    if AllDecodable(v.failures, o.failures) && AllValid(v.ops, o.ops) {
      forall k | k in v.failures ensures Decodable(v.failures[k]) {
        assert k in o.failures;
      }
      forall k | k in v.ops ensures ValidRuntime(v.ops[k]) {
        assert k in o.ops;
      }
    }
  }

  lemma FailuresBack(m: FailureLog, order: seq<Uuid>)
    requires Keyed(m) && Idempotency.Enumerates(order, m.Keys)
    ensures |Records(m, order)| == |m| && FailureMap(Records(m, order)) == Some(ClipFailures(m))
  {
    hide ClipRecord, Records, FailureMap;
    EnumerationSize(order, m.Keys);
    FailureMapRebuilt(m, order);
    assert ClippedOn(m, order) == ClipFailures(m);
  }

  lemma OpsBack(t: Registry.Table, order: seq<Uuid>)
    requires Idempotency.Enumerates(order, t.Keys)
    ensures |Runtimes(t, order)| == |t| && NoRepeats(order) && OpTable(order, Runtimes(t, order)) == ClipOps(t)
  {
    hide ClipRuntime, Runtimes, OpTable;
    EnumerationSize(order, t.Keys);
    OpTableRebuilt(t, order);
    assert (map k | k in order :: ClipRuntime(t[k])) == ClipOps(t);
  }

  lemma IdemBack(m: Idempotency.Entries, order: seq<Idempotency.Key>)
    requires Idempotency.Enumerates(order, m.Keys)
    ensures |Views(m, order)| == |m| && EntryMap(Views(m, order)) == ClipIdem(m)
  {
    hide EntryOf, ClippedView, Views, EntryMap;
    EnumerationSize(order, m.Keys);
    EntryMapRebuilt(m, order);
    assert (map k | k in order :: EntryOf(ClippedView(m, k))) == ClipIdem(m);
  }

  lemma FinishGathered(v: StoreValue, o: Orders, own: Ownership.Holder)
    requires Storable(v) && Enumerates(o, v)
    ensures Finish(Gathered(v, o, own)) == Loaded(ClipFailures(v.failures), ClipOps(v.ops), ClipIdem(v.idem))
  {
    hide ClipFailures, ClipOps, ClipIdem, FailureMap, OpTable, EntryMap, Records, Runtimes, Views, RecordBytes, NoRepeats;
    FailuresBack(v.failures, o.failures);
    OpsBack(v.ops, o.ops);
    IdemBack(v.idem, o.idem);
  }

  function AfterOwner(own: Ownership.Holder, saved: Ownership.Holder): Ownership.Holder {
    Ownership.Step(own, Ownership.Adopt(saved.owner, saved.generation, saved.boot))
  }

  lemma FoldOwner(st: Partial, v: StoreValue)
    requires !st.first
    ensures Absorb(st, OwnerFrame(v)) == Going(st.(own := AfterOwner(st.own, v.own)))
  {
    hide ParseHolder, HolderBytes;
    HolderRead(v.own);
  }

  lemma LoadFrames(fs: seq<Frame>, own: Ownership.Holder)
    requires AllSized(fs) && fs != []
    ensures LoadBytes(ConcatFrames(fs), own) ==
            match Fold(Begin(own), fs)
            case Refused(left) => Rejected(left)
            case Going(st) => Finish(st)
  {
    hide Fold, Finish;
    ScanFrames(fs, [], Begin(own));
    assert ConcatFrames(fs) + [] == ConcatFrames(fs);
  }

  /** Crash transparency: whatever order the maps are iterated in, loading a saved
      snapshot succeeds exactly for loadable stores, and then rebuilds the failure
      log, the operation table and the idempotency table (over-long text emptied,
      entry authority dropped). A refused one leaves the ownership alone. */
  lemma SavedSnapshotLoads(v: StoreValue, o: Orders, own: Ownership.Holder)
    requires Storable(v) && Enumerates(o, v)
    ensures LoadBytes(SnapshotBytes(v, o), own) ==
            if Loadable(v) then Loaded(ClipFailures(v.failures), ClipOps(v.ops), ClipIdem(v.idem))
            else Rejected(own)
  {
    hide Fold, Finish, TableFrames, Gathered, ClipFailures, ClipOps, ClipIdem, Loadable, Storable, Absorb, HolderBytes;
    var tables, owner := TableFrames(v, o), OwnerFrame(v);
    TableFramesSized(v, o);
    LoadFrames(tables + [owner], own);
    FoldTables(v, o, own);
    FoldLast(Begin(own), tables, owner);
    if Loadable(v) {
      var st := Gathered(v, o, own);
      GatheredStarted(v, o, own);
      FoldOwner(st, v);
      FinishGathered(v, o, AfterOwner(own, v.own));
    }
  }

  lemma GatheredStarted(v: StoreValue, o: Orders, own: Ownership.Holder)
    requires Enumerates(o, v)
    ensures !Gathered(v, o, own).first && Gathered(v, o, own).own == own
    ensures forall own' :: Gathered(v, o, own).(own := own') == Gathered(v, o, own')
  {
  }

  // ------------------------------------------------------ nothing is lost or changed

  predicate ShortRecord(r: FailureRecord) {
    |r.cause.summary| <= 0xFFFF && |r.cause.reason| <= 0xFFFF
  }

  /** No text is longer than its 16-bit length field can say. */
  ghost predicate ShortTexts(v: StoreValue) {
    && (forall k :: k in v.failures ==> ShortRecord(v.failures[k]))
    && (forall k :: k in v.ops ==> |v.ops[k].outcome| <= 0xFFFF)
    && (forall k :: k in v.idem ==> |v.idem[k].metadata| <= 0xFFFF)
  }

  lemma ClipIsIdentity(r: FailureRecord)
    ensures ClipRecord(r) == r <==> ShortRecord(r)
  {
  }

  lemma ClipOutcome(rt: Registry.Runtime)
    ensures ClipRuntime(rt) == rt <==> |rt.outcome| <= 0xFFFF
  {
  }

  lemma FailuresUnclipped(m: FailureLog)
    ensures ClipFailures(m) == m <==> forall k :: k in m ==> ShortRecord(m[k])
  {
    hide ClipRecord, ShortRecord;
    forall k | k in m ensures ClipFailures(m)[k] == m[k] <==> ShortRecord(m[k]) {
      ClipIsIdentity(m[k]);
    }
  }

  lemma OpsUnclipped(t: Registry.Table)
    ensures ClipOps(t) == t <==> forall k :: k in t ==> |t[k].outcome| <= 0xFFFF
  {
    hide ClipRuntime;
    forall k | k in t ensures ClipOps(t)[k] == t[k] <==> |t[k].outcome| <= 0xFFFF {
      ClipOutcome(t[k]);
    }
  }

  lemma IdemUnclipped(m: Idempotency.Entries)
    ensures Idempotency.SameVisible(ClipIdem(m), m) <==> forall k :: k in m ==> |m[k].metadata| <= 0xFFFF
  {
    assert ClipIdem(m).Keys == m.Keys;
    forall k | k in m
      ensures Idempotency.ViewOf(ClipIdem(m), k) == Idempotency.ViewOf(m, k) <==> |m[k].metadata| <= 0xFFFF
    {
      assert ClipIdem(m)[k] == EntryOf(ClippedView(m, k));
    }
  }

  /** A reload gives back the same failure log, the same operation table and the
      same visible idempotency entries exactly when no text is over-long. */
  lemma ReloadIsExact(v: StoreValue, o: Orders, own: Ownership.Holder)
    requires Storable(v) && Enumerates(o, v) && Loadable(v)
    ensures var r := LoadBytes(SnapshotBytes(v, o), own);
            && r.Loaded?
            && (ShortTexts(v) <==>
                  r.failures == v.failures && r.ops == v.ops && Idempotency.SameVisible(r.idem, v.idem))
  {
    hide LoadBytes, SnapshotBytes, ClipFailures, ClipOps, ClipIdem, Storable, Loadable, ShortRecord, Enumerates, Lists;
    SavedSnapshotLoads(v, o, own);
    FailuresUnclipped(v.failures);
    OpsUnclipped(v.ops);
    IdemUnclipped(v.idem);
  }

  // ---------------------------------------------------------------- truncation

  lemma ConcatLast(fs: seq<Frame>, f: Frame)
    ensures ConcatFrames(fs + [f]) == ConcatFrames(fs) + FrameBytes(f)
  {
    assert (fs + [f])[..|fs|] == fs;
  }

  /** A proper prefix of whole frames is some of the frames and a proper prefix of the next. */
  lemma {:induction false} PrefixSplits(fs: seq<Frame>, n: nat) returns (k: nat, m: nat)
    requires n < |ConcatFrames(fs)|
    ensures k < |fs| && m < |FrameBytes(fs[k])|
    ensures ConcatFrames(fs)[..n] == ConcatFrames(fs[..k]) + FrameBytes(fs[k])[..m]
  {
    hide FrameBytes;
    var front, f := fs[..|fs| - 1], fs[|fs| - 1];
    var size := |ConcatFrames(front)|;
    if n < size {
      k, m := PrefixSplits(front, n);
      assert fs[..k] == front[..k];
      assert ConcatFrames(fs)[..n] == ConcatFrames(front)[..n];
    } else {
      k, m := |fs| - 1, n - size;
    }
  }

  lemma PartialFrameRefused(f: Frame, m: nat, st: Partial)
    requires Sized(f) && 0 < m < |FrameBytes(f)|
    ensures Scan(FrameBytes(f)[..m], st) == Refused(st.own)
  {
    hide FrameBytes, ParseFrame, Absorb;
    TruncatedFrameRefused(f, m);
  }

  function Total(st: Partial): nat {
    |st.failures| + |st.runtimes| + |st.views|
  }

  lemma AbsorbAddsOne(st: Partial, f: Frame)
    requires Absorb(st, f).Going?
    ensures var st' := Absorb(st, f).st;
            && !st'.first
            && (!st.first ==> (st'.nfail, st'.nop, st'.nid) == (st.nfail, st.nop, st.nid)
                              && Total(st') <= Total(st) + 1)
            && (st.first ==> Some((st'.nfail, st'.nop, st'.nid)) == HeaderCounts(f) && Total(st') == Total(st))
  {
    hide ParseCounts, ParseRecord, ParseOp, ParseView, ParseHolder;
  }

  function HeaderCounts(f: Frame): Option<(u32, u32, u32)> {
    match ParseCounts(f.payload)
    case None => None
    case Some((counts, _)) => Some(counts)
  }

  lemma {:induction false} FoldTotal(fs: seq<Frame>, own: Ownership.Holder)
    requires fs != [] && Fold(Begin(own), fs).Going?
    ensures var st := Fold(Begin(own), fs).st;
            && !st.first && Total(st) <= |fs| - 1
            && Some((st.nfail, st.nop, st.nid)) == HeaderCounts(fs[0])
  {
    hide Absorb, HeaderCounts;
    var front := fs[..|fs| - 1];
    if front == [] {
      AbsorbAddsOne(Begin(own), fs[0]);
    } else {
      FoldTotal(front, own);
      AbsorbAddsOne(Fold(Begin(own), front).st, fs[|fs| - 1]);
    }
  }

  predicate NoOwner(fs: seq<Frame>) {
    forall i :: 0 <= i < |fs| ==> fs[i].kind != K_OWN
  }

  lemma AbsorbKeepsOwn(st: Partial, f: Frame)
    requires f.kind != K_OWN
    ensures Absorb(st, f) == Refused(st.own) || (Absorb(st, f).Going? && Absorb(st, f).st.own == st.own)
  {
    hide ParseCounts, ParseRecord, ParseOp, ParseView, ParseHolder;
  }

  /** Only ownership frames touch the ownership. */
  lemma {:induction false} FoldKeepsOwn(st: Partial, fs: seq<Frame>)
    requires NoOwner(fs)
    ensures Fold(st, fs) == Refused(st.own) || (Fold(st, fs).Going? && Fold(st, fs).st.own == st.own)
  {
    hide Absorb;
    if fs != [] {
      FoldKeepsOwn(st, fs[..|fs| - 1]);
      if Fold(st, fs[..|fs| - 1]).Going? {
        AbsorbKeepsOwn(Fold(st, fs[..|fs| - 1]).st, fs[|fs| - 1]);
      }
    }
  }

  /** With frames missing, the tables fall short of the header's counts. */
  lemma MissingFramesRejected(fs: seq<Frame>, own: Ownership.Holder, counts: (u32, u32, u32))
    requires fs != [] && HeaderCounts(fs[0]) == Some(counts)
    requires |fs| - 1 < counts.0 + counts.1 + counts.2
    ensures Fold(Begin(own), fs).Going? ==>
              Finish(Fold(Begin(own), fs).st) == Rejected(Fold(Begin(own), fs).st.own)
  {
    hide Fold, HeaderCounts, FailureMap, OpTable, EntryMap, NoRepeats;
    if Fold(Begin(own), fs).Going? {
      FoldTotal(fs, own);
    }
  }

  /** Cut anywhere inside the frames of the tables, a snapshot is rejected. */
  lemma CutTablesRejected(fs: seq<Frame>, n: nat, own: Ownership.Holder, counts: (u32, u32, u32))
    requires AllSized(fs) && NoOwner(fs) && n < |ConcatFrames(fs)| && fs != []
    requires HeaderCounts(fs[0]) == Some(counts) && |fs| - 1 <= counts.0 + counts.1 + counts.2
    ensures LoadBytes(ConcatFrames(fs)[..n], own) == Rejected(own)
  {
    hide ConcatFrames, FrameBytes, HeaderCounts, Finish, Absorb;
    var k, m := PrefixSplits(fs, n);
    var gs, part := fs[..k], FrameBytes(fs[k])[..m];
    ScanFrames(gs, part, Begin(own));
    FoldKeepsOwn(Begin(own), gs);
    if m > 0 {
      assert part != [];
      if Fold(Begin(own), gs).Going? {
        PartialFrameRefused(fs[k], m, Fold(Begin(own), gs).st);
      }
    } else if k == 0 {
      EmptyFrames();
      assert gs == [];
    } else {
      MissingFramesRejected(gs, own, counts);
    }
  }

  lemma EmptyFrames()
    ensures ConcatFrames([]) == []
  {
  }

  lemma SavedHeader(v: StoreValue, o: Orders)
    requires Storable(v) && Enumerates(o, v)
    ensures TableFrames(v, o) != []
    ensures HeaderCounts(TableFrames(v, o)[0]) == Some((|v.failures|, |v.ops|, |v.idem|))
    ensures |TableFrames(v, o)| - 1 == |v.failures| + |v.ops| + |v.idem|
  {
    hide CountsBytes, ParseCounts, FailureFrames, OpFrames, IdemFrames, RecordBytes, Keyed, Enumerates;
    OrderSizes(v, o);
    CountsRead(Count32(|v.failures|), Count32(|v.ops|), Count32(|v.idem|));
  }

  lemma OrderSizes(v: StoreValue, o: Orders)
    requires Enumerates(o, v)
    ensures |o.failures| == |v.failures| && |o.ops| == |v.ops| && |o.idem| == |v.idem|
  {
    hide Idempotency.Enumerates;
    EnumerationSize(o.failures, v.failures.Keys);
    EnumerationSize(o.ops, v.ops.Keys);
    EnumerationSize(o.idem, v.idem.Keys);
  }

  lemma WithoutOwnerLoads(v: StoreValue, o: Orders, own: Ownership.Holder)
    requires Storable(v) && Enumerates(o, v)
    ensures LoadBytes(ConcatFrames(TableFrames(v, o)), own)
            == if Loadable(v) then Loaded(ClipFailures(v.failures), ClipOps(v.ops), ClipIdem(v.idem)) else Rejected(own)
  {
    hide Fold, Finish, TableFrames, Gathered, ClipFailures, ClipOps, ClipIdem, Loadable, Storable, LoadBytes, ConcatFrames;
    TableFramesSized(v, o);
    SavedHeader(v, o);
    LoadFrames(TableFrames(v, o), own);
    FoldTables(v, o, own);
    FinishGathered(v, o, own);
  }

  lemma {:induction false} FailureKinds(m: FailureLog, order: seq<Uuid>)
    requires forall k :: k in order ==> k in m
    ensures forall i :: 0 <= i < |order| ==> FailureFrames(m, order)[i].kind == K_FAIL
    ensures NoOwner(FailureFrames(m, order))
  {
    hide RecordBytes;
    if order != [] {
      FailureKinds(m, order[..|order| - 1]);
    }
  }

  lemma {:induction false} OpKinds(t: Registry.Table, order: seq<Uuid>)
    requires forall k :: k in order ==> k in t
    ensures forall i :: 0 <= i < |order| ==> OpFrames(t, order)[i].kind == K_OP
    ensures NoOwner(OpFrames(t, order))
  {
    hide OpBytes;
    if order != [] {
      OpKinds(t, order[..|order| - 1]);
    }
  }

  lemma {:induction false} IdemKinds(m: Idempotency.Entries, order: seq<Idempotency.Key>)
    requires forall k :: k in order ==> k in m
    ensures forall i :: 0 <= i < |order| ==> IdemFrames(m, order)[i].kind == K_ID
    ensures NoOwner(IdemFrames(m, order))
  {
    hide ViewBytes;
    if order != [] {
      IdemKinds(m, order[..|order| - 1]);
    }
  }

  lemma TablesHaveNoOwner(v: StoreValue, o: Orders)
    requires Enumerates(o, v)
    ensures NoOwner(TableFrames(v, o))
  {
    hide CountsBytes, FailureFrames, OpFrames, IdemFrames;
    FailureKinds(v.failures, o.failures);
    OpKinds(v.ops, o.ops);
    IdemKinds(v.idem, o.idem);
  }

  lemma CutBeforeOwner(v: StoreValue, o: Orders, own: Ownership.Holder, n: nat)
    requires Storable(v) && Enumerates(o, v) && n < |ConcatFrames(TableFrames(v, o))|
    ensures LoadBytes(SnapshotBytes(v, o)[..n], own) == Rejected(own)
  {
    hide LoadBytes, ConcatFrames, TableFrames, OwnerFrame, Storable, HeaderCounts, AllSized, Sized, FrameBytes;
    hide Enumerates, Lists, SnapshotBytes;
    SavedParts(v, o);
    TableFramesSized(v, o);
    SavedHeader(v, o);
    TablesHaveNoOwner(v, o);
    assert SnapshotBytes(v, o)[..n] == ConcatFrames(TableFrames(v, o))[..n];
    CutTablesRejected(TableFrames(v, o), n, own, (|v.failures|, |v.ops|, |v.idem|));
  }

  /** Truncation: of all proper prefixes of a saved snapshot, load accepts at most the
      one that lacks exactly the final ownership frame, and that one like the whole. The others leave the ownership alone. */
  lemma TruncatedSnapshot(v: StoreValue, o: Orders, own: Ownership.Holder, n: nat)
    requires Storable(v) && Enumerates(o, v) && n < |SnapshotBytes(v, o)|
    ensures var cut := LoadBytes(SnapshotBytes(v, o)[..n], own);
            && cut == (if n == |SnapshotBytes(v, o)| - |FrameBytes(OwnerFrame(v))|
                       then LoadBytes(SnapshotBytes(v, o), own) else Rejected(own))
            && (cut.Loaded? <==> Loadable(v) && n == |SnapshotBytes(v, o)| - |FrameBytes(OwnerFrame(v))|)
  {
    hide LoadBytes, ConcatFrames, FrameBytes, TableFrames, OwnerFrame, ClipFailures, ClipOps, ClipIdem, Storable, Loadable;
    hide AllSized, Sized, SnapshotBytes, Enumerates, Lists;
    var s, size := SnapshotBytes(v, o), |ConcatFrames(TableFrames(v, o))|;
    SavedParts(v, o);
    if n < size {
      CutBeforeOwner(v, o, own, n);
    } else if n == size {
      assert s[..n] == ConcatFrames(TableFrames(v, o));
      WithoutOwnerLoads(v, o, own);
      SavedSnapshotLoads(v, o, own);
    } else {
      TableFramesSized(v, o);
      TablesHaveNoOwner(v, o);
      assert s[..n] == ConcatFrames(TableFrames(v, o)) + FrameBytes(OwnerFrame(v))[..n - size];
      CutOwnerRejected(TableFrames(v, o), OwnerFrame(v), n - size, own);
    }
  }

  lemma SavedParts(v: StoreValue, o: Orders)
    requires Enumerates(o, v)
    ensures SnapshotBytes(v, o) == ConcatFrames(TableFrames(v, o)) + FrameBytes(OwnerFrame(v))
  {
    hide ConcatFrames, FrameBytes, TableFrames, OwnerFrame;
    ConcatLast(TableFrames(v, o), OwnerFrame(v));
  }

  lemma CutOwnerRejected(fs: seq<Frame>, f: Frame, m: nat, own: Ownership.Holder)
    requires AllSized(fs) && NoOwner(fs) && Sized(f) && 0 < m < |FrameBytes(f)|
    ensures LoadBytes(ConcatFrames(fs) + FrameBytes(f)[..m], own) == Rejected(own)
  {
    hide ConcatFrames, FrameBytes, Fold, Finish, Absorb, NoOwner;
    FoldKeepsOwn(Begin(own), fs);
    ScanFrames(fs, FrameBytes(f)[..m], Begin(own));
    if Fold(Begin(own), fs).Going? {
      PartialFrameRefused(f, m, Fold(Begin(own), fs).st);
    }
  }

  // ---------------------------------------------------------------- corruption

  /** Position p of the concatenation lies in the length field of a frame. */
  predicate InLengthField(fs: seq<Frame>, p: nat) {
    if fs == [] then false
    else
      var start := |ConcatFrames(fs[..|fs| - 1])|;
      if p >= start then 7 <= p - start < 11 else InLengthField(fs[..|fs| - 1], p)
  }

  lemma CorruptLastRefused(
    front: seq<Frame>, f: Frame, bad: seq<byte>, j: nat, post: seq<byte>, st: Partial)
    requires AllSized(front) && Sized(f)
    requires Burst(FrameBytes(f), bad, j) && bad != FrameBytes(f) && bad[7..11] == FrameBytes(f)[7..11]
    ensures Scan(ConcatFrames(front) + bad + post, st).Refused?
  {
    hide ConcatFrames, FrameBytes, Fold, Absorb, ParseFrame;
    CorruptFrameRefused(f, bad, j, post);
    ScanFrames(front, bad + post, st);
    Concat(ConcatFrames(front), bad, post);
  }

  /** Bytes changed within two adjacent positions, outside the length fields. */
  ghost predicate Corrupts(fs: seq<Frame>, bad: seq<byte>, p: nat) {
    && Burst(ConcatFrames(fs), bad, p) && bad != ConcatFrames(fs)
    && forall q :: 0 <= q < |bad| && InLengthField(fs, q) ==> bad[q] == ConcatFrames(fs)[q]
  }

  lemma CorruptionInFront(fs: seq<Frame>, bad: seq<byte>, p: nat, n: nat, size: nat)
    requires |fs| == n + 1 && Corrupts(fs, bad, p) && size == |ConcatFrames(fs[..n])|
    requires bad[..size] != ConcatFrames(fs[..n])
    ensures Corrupts(fs[..n], bad[..size], p)
  {
    hide FrameBytes;
    assert ConcatFrames(fs)[..size] == ConcatFrames(fs[..n]);
    forall q | 0 <= q < size && InLengthField(fs[..n], q) ensures bad[q] == ConcatFrames(fs[..n])[q] {
      assert InLengthField(fs, q);
    }
  }

  lemma BurstBehind(front: seq<byte>, g: seq<byte>, b: seq<byte>, p: nat)
    requires Burst(front + g, front + b, p)
    ensures Burst(g, b, if p >= |front| then p - |front| else 0)
  {
    forall j | 0 <= j < |g| ensures (front + g)[|front| + j] == g[j] && (front + b)[|front| + j] == b[j] {
    }
  }

  lemma LastLengthField(fs: seq<Frame>, n: nat, size: nat, j: nat)
    requires |fs| == n + 1 && size == |ConcatFrames(fs[..n])| && 7 <= j < 11
    ensures InLengthField(fs, size + j)
  {
    hide ConcatFrames;
  }

  lemma CorruptionInLast(fs: seq<Frame>, bad: seq<byte>, p: nat, n: nat, size: nat)
    requires |fs| == n + 1 && Corrupts(fs, bad, p) && size == |ConcatFrames(fs[..n])|
    requires bad[..size] == ConcatFrames(fs[..n])
    ensures bad[size..] != FrameBytes(fs[n])
    ensures Burst(FrameBytes(fs[n]), bad[size..], if p >= size then p - size else 0)
    ensures bad[size..][7..11] == FrameBytes(fs[n])[7..11]
  {
    hide FrameBytes, InLengthField, Burst;
    CorruptsSomething(fs, bad, p);
    var front, g := ConcatFrames(fs[..n]), FrameBytes(fs[n]);
    var b := bad[size..];
    assert bad == front + b;
    BurstBehind(front, g, b, p);
    forall j | 7 <= j < 11 ensures b[j] == g[j] {
      LastLengthField(fs, n, size, j);
      assert (front + b)[size + j] == b[j] && (front + g)[size + j] == g[j];
    }
  }

  lemma {:induction false} CorruptRefused(fs: seq<Frame>, bad: seq<byte>, p: nat, post: seq<byte>, st: Partial)
    requires AllSized(fs) && Corrupts(fs, bad, p)
    ensures Scan(bad + post, st).Refused?
    decreases |fs|
  {
    hide Scan, FrameBytes, Corrupts, InLengthField, Burst;
    assert fs != [] by {
      CorruptsSomething(fs, bad, p);
    }
    var n := |fs| - 1;
    var front := fs[..n];
    var size := |ConcatFrames(front)|;
    CorruptsSomething(fs, bad, p);
    if bad[..size] != ConcatFrames(front) {
      CorruptionInFront(fs, bad, p, n, size);
      CorruptRefused(front, bad[..size], p, bad[size..] + post, st);
      assert bad[..size] + (bad[size..] + post) == bad + post;
    } else {
      CorruptionInLast(fs, bad, p, n, size);
      CorruptLastRefused(front, fs[n], bad[size..], if p >= size then p - size else 0, post, st);
      assert bad == ConcatFrames(front) + bad[size..];
    }
  }

  lemma CorruptsSomething(fs: seq<Frame>, bad: seq<byte>, p: nat)
    requires Corrupts(fs, bad, p)
    ensures fs != [] && |bad| == |ConcatFrames(fs)|
  {
  }

  /** Corruption detection: in a file made of whole frames, a change confined to two
      adjacent bytes that leaves the length fields alone is always rejected. */
  lemma CorruptFileRejected(fs: seq<Frame>, bad: seq<byte>, p: nat, own: Ownership.Holder)
    requires AllSized(fs) && Corrupts(fs, bad, p)
    ensures LoadBytes(bad, own).Rejected?
  {
    hide Scan, Finish, Corrupts;
    CorruptRefused(fs, bad, p, [], Begin(own));
    assert bad + [] == bad;
  }

  /** In particular, of a saved snapshot no single byte outside the length fields can change. */
  lemma ChangedByteRejected(v: StoreValue, o: Orders, own: Ownership.Holder, p: nat, b: byte)
    requires Storable(v) && Enumerates(o, v) && p < |SnapshotBytes(v, o)|
    requires b != SnapshotBytes(v, o)[p] && !InLengthField(TableFrames(v, o) + [OwnerFrame(v)], p)
    ensures LoadBytes(SnapshotBytes(v, o)[p := b], own).Rejected?
  {
    hide LoadBytes, TableFrames, OwnerFrame, InLengthField, ConcatFrames, Storable, Sized, Enumerates, Lists;
    TableFramesSized(v, o);
    var fs := TableFrames(v, o) + [OwnerFrame(v)];
    CorruptFileRejected(fs, SnapshotBytes(v, o)[p := b], p, own);
  }

  // ---------------------------------------------------------------- soundness

  lemma {:induction false} ConcatFirst(f: Frame, fs: seq<Frame>)
    ensures ConcatFrames([f] + fs) == FrameBytes(f) + ConcatFrames(fs)
  {
    hide FrameBytes;
    if fs == [] {
      ConcatLast([], f);
      assert [f] + fs == [] + [f];
    } else {
      var front, l := fs[..|fs| - 1], fs[|fs| - 1];
      ConcatFirst(f, front);
      ConcatLast([f] + front, l);
      assert [f] + fs == [f] + front + [l];
      Concat(FrameBytes(f), ConcatFrames(front), FrameBytes(l));
    }
  }

  /** A scan that gets to the end of the file has read it as whole frames. */
  lemma {:induction false} ScanSound(s: seq<byte>, st: Partial) returns (fs: seq<Frame>)
    requires Scan(s, st).Going?
    ensures AllSized(fs) && s == ConcatFrames(fs) && Fold(st, fs) == Scan(s, st)
    decreases |s|
  {
    hide Absorb, ParseFrame, FrameBytes, ConcatFrames, Fold;
    if s == [] {
      fs := [];
      EmptyFrames();
      FoldNothing(st);
    } else {
      var (f, rest) := ParseFrame(s).value;
      FrameSpells(s);
      var st' := Absorb(st, f).st;
      var gs := ScanSound(rest, st');
      fs := [f] + gs;
      ConcatFirst(f, gs);
      FoldAppend(st, [f], gs);
      FoldNothing(st);
      FoldLast(st, [], f);
      assert [] + [f] == [f];
    }
  }

  lemma FoldNothing(st: Partial)
    ensures Fold(st, []) == Going(st)
  {
  }

  /** The ids at the front of the payloads of one kind, in file order. */
  function IdsIn(fs: seq<Frame>, kind: byte): seq<Option<Uuid>> {
    if fs == [] then []
    else
      var front, f := IdsIn(fs[..|fs| - 1], kind), fs[|fs| - 1];
      if f.kind == kind then front + [FirstId(f)] else front
  }

  function FirstId(f: Frame): Option<Uuid> {
    match ParseId(f.payload)
    case None => None
    case Some((u, _)) => Some(u)
  }

  function FailureIds(rs: seq<FailureRecord>): (ids: seq<Option<Uuid>>)
    ensures |ids| == |rs|
  {
    if rs == [] then [] else FailureIds(rs[..|rs| - 1]) + [Some(rs[|rs| - 1].ids.failureId)]
  }

  function Somes(ids: seq<Uuid>): (os: seq<Option<Uuid>>)
    ensures |os| == |ids|
  {
    if ids == [] then [] else Somes(ids[..|ids| - 1]) + [Some(ids[|ids| - 1])]
  }

  predicate KnownKinds(fs: seq<Frame>) {
    forall i :: 0 <= i < |fs| ==> K_FAIL <= fs[i].kind <= K_OWN
  }

  lemma RecordFirstId(f: Frame)
    requires ParseRecord(f.payload).Some?
    ensures FirstId(f) == Some(ParseRecord(f.payload).value.0.ids.failureId)
  {
    hide ParseId, ParseCause, ParseEffects, ParseEnvelope, ParseHandling, ParseU32, ParseIds, ValidAuthority;
  }

  lemma OpFirstId(f: Frame)
    requires ParseOp(f.payload).Some?
    ensures FirstId(f) == Some(ParseOp(f.payload).value.0.0)
  {
    hide ParseId, ParseU32, ParseBool, ParseText, ParseEnvelope, ValidAuthority;
  }

  /** The tables gathered from the frames behind the header match them one to one. */
  ghost predicate Tallies(st: Partial, fs: seq<Frame>) {
    && !st.first && KnownKinds(fs)
    && IdsIn(fs, K_FAIL) == FailureIds(st.failures)
    && IdsIn(fs, K_OP) == Somes(st.opids) && |st.opids| == |st.runtimes|
    && |IdsIn(fs, K_ID)| == |st.views|
  }

  lemma AbsorbTallies(st: Partial, fs: seq<Frame>, f: Frame)
    requires Tallies(st, fs) && Absorb(st, f).Going?
    ensures Tallies(Absorb(st, f).st, fs + [f])
  {
    hide ParseCounts, ParseRecord, ParseOp, ParseView, ParseHolder, FirstId;
    assert (fs + [f])[..|fs|] == fs;
    var st' := Absorb(st, f).st;
    if f.kind == K_FAIL {
      RecordFirstId(f);
      assert st'.failures[..|st.failures|] == st.failures;
    } else if f.kind == K_OP {
      OpFirstId(f);
      assert st'.opids[..|st.opids|] == st.opids;
    }
  }

  lemma {:induction false} FoldTallies(st: Partial, fs: seq<Frame>)
    requires Tallies(st, []) && Fold(st, fs).Going?
    ensures Tallies(Fold(st, fs).st, fs)
    ensures var st' := Fold(st, fs).st; (st'.nfail, st'.nop, st'.nid) == (st.nfail, st.nop, st.nid)
  {
    hide Absorb, Tallies, HeaderCounts;
    if fs != [] {
      var front, f := fs[..|fs| - 1], fs[|fs| - 1];
      FoldTallies(st, front);
      var mid := Fold(st, front).st;
      TalliesStarted(mid, front);
      AbsorbTallies(mid, front, f);
      AbsorbAddsOne(mid, f);
      assert fs == front + [f];
    }
  }

  lemma TalliesStarted(st: Partial, fs: seq<Frame>)
    requires Tallies(st, fs)
    ensures !st.first
  {
  }

  lemma {:induction false} MappedIdsDistinct(rs: seq<FailureRecord>)
    requires FailureMap(rs).Some?
    ensures NoRepeats(FailureIds(rs))
    ensures forall u :: Some(u) in FailureIds(rs) <==> u in FailureMap(rs).value
    ensures None !in FailureIds(rs)
  {
    if rs != [] {
      MappedIdsDistinct(rs[..|rs| - 1]);
    }
  }

  lemma {:induction false} SomesDistinct(ids: seq<Uuid>)
    requires NoRepeats(ids)
    ensures NoRepeats(Somes(ids))
    ensures forall i :: 0 <= i < |ids| ==> Somes(ids)[i] == Some(ids[i])
  {
    if ids != [] {
      SomesDistinct(ids[..|ids| - 1]);
    }
  }

  /** data is a header frame and then, for each table, as many frames as the header
      says, no two with the same failure id and no two with the same operation id. */
  ghost predicate WellFormed(data: seq<byte>, fs: seq<Frame>) {
    && fs != [] && AllSized(fs) && data == ConcatFrames(fs) && |data| >= 19 * |fs|
    && KnownKinds(fs[1..])
    && HeaderCounts(fs[0]) == Some((|IdsIn(fs[1..], K_FAIL)|, |IdsIn(fs[1..], K_OP)|, |IdsIn(fs[1..], K_ID)|))
    && NoRepeats(IdsIn(fs[1..], K_FAIL)) && NoRepeats(IdsIn(fs[1..], K_OP))
  }

  lemma {:induction false} FramesSize(fs: seq<Frame>)
    ensures |ConcatFrames(fs)| >= 19 * |fs|
  {
    hide FrameBody;
    if fs != [] {
      FramesSize(fs[..|fs| - 1]);
    }
  }

  lemma HeaderFolds(fs: seq<Frame>, own: Ownership.Holder)
    requires fs != [] && Fold(Begin(own), fs).Going?
    ensures Absorb(Begin(own), fs[0]).Going?
    ensures Fold(Begin(own), fs) == Fold(Absorb(Begin(own), fs[0]).st, fs[1..])
  {
    hide Absorb, Fold;
    FoldAppend(Begin(own), [fs[0]], fs[1..]);
    FoldNothing(Begin(own));
    FoldLast(Begin(own), [], fs[0]);
    assert [] + [fs[0]] == [fs[0]] && [fs[0]] + fs[1..] == fs;
  }

  lemma HeaderTallies(f: Frame, own: Ownership.Holder)
    requires Absorb(Begin(own), f).Going?
    ensures Tallies(Absorb(Begin(own), f).st, [])
  {
    hide ParseCounts;
  }

  /** Parser soundness: load succeeds only on a file that is a concatenation of
      whole checksummed frames whose header counts match what follows. */
  lemma AcceptedIsWellFormed(data: seq<byte>, own: Ownership.Holder)
    requires LoadBytes(data, own).Loaded?
    ensures exists fs :: WellFormed(data, fs)
  {
    hide Absorb, Fold, ConcatFrames, OpTable, EntryMap, FailureMap, HeaderCounts, Scan, Tallies, IdsIn;
    hide KnownKinds, FailureIds, Somes, AllSized;
    var fs := ScanSound(data, Begin(own));
    EmptyFrames();
    HeaderFolds(fs, own);
    FramesSize(fs);
    var st0 := Absorb(Begin(own), fs[0]).st;
    HeaderTallies(fs[0], own);
    AbsorbAddsOne(Begin(own), fs[0]);
    FoldTallies(st0, fs[1..]);
    TalliesMatch(Fold(st0, fs[1..]).st, fs);
    assert WellFormed(data, fs);
  }

  lemma TalliesMatch(st: Partial, fs: seq<Frame>)
    requires fs != [] && Tallies(st, fs[1..]) && Finish(st).Loaded?
    ensures KnownKinds(fs[1..])
    ensures |IdsIn(fs[1..], K_FAIL)| == st.nfail && |IdsIn(fs[1..], K_OP)| == st.nop
    ensures |IdsIn(fs[1..], K_ID)| == st.nid
    ensures NoRepeats(IdsIn(fs[1..], K_FAIL)) && NoRepeats(IdsIn(fs[1..], K_OP))
  {
    hide FailureMap, OpTable, EntryMap, FailureIds, Somes, IdsIn, KnownKinds;
    MappedIdsDistinct(st.failures);
    SomesDistinct(st.opids);
  }
}

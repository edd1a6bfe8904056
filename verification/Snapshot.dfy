/** The snapshot format of store.cpp: which frames a save writes, and what the
    strict parser of load makes of a byte sequence. */
module Snapshot {
  import opened Bytes
  import opened Ids
  import opened Authority
  import opened Codec
  import opened FailureRecords
  import opened Frames
  import Registry
  import Idempotency
  import Ownership

  const K_HEADER: byte := 0
  const K_FAIL: byte := 1
  const K_OP: byte := 2
  const K_ID: byte := 3
  const K_OWN: byte := 4

  type FailureLog = map<Uuid, FailureRecord>

  datatype StoreValue = StoreValue(
    failures: FailureLog, ops: Registry.Table, idem: Idempotency.Entries, own: Ownership.Holder)

  // ----------------------------------------------------------------- payloads

  function CountsBytes(fails: u32, ops: u32, ids: u32): (b: seq<byte>)
    ensures |b| == 18
  {
    U32Bytes(MAGIC) + U16Bytes(VERSION) + U32Bytes(fails) + U32Bytes(ops) + U32Bytes(ids)
  }

  function OpBytes(op: Uuid, rt: Registry.Runtime): (b: seq<byte>)
    ensures |b| <= 220 + 0xFFFF
  {
    IdBytes(op) + U32Bytes(rt.state) + U32Bytes(rt.attempts) + BoolBytes(rt.recorded) + TextBytes(rt.outcome)
    + BoolBytes(rt.idempotent) + IdBytes(rt.idemKey) + (EnvelopeBytes(rt.authority) + EnvelopeBytes(rt.terminal))
  }

  function ViewBytes(v: Idempotency.EntryView): (b: seq<byte>)
    ensures |b| <= 46 + 0xFFFF
  {
    IdBytes(v.key.op) + IdBytes(v.key.key) + U64Bytes(v.hash) + U32Bytes(v.state) + TextBytes(v.metadata)
  }

  function HolderBytes(h: Ownership.Holder): (b: seq<byte>)
    ensures |b| == 28
  {
    U32Bytes(h.owner) + U64Bytes(h.generation) + IdBytes(h.boot)
  }

  // ------------------------------------------------------------------- frames

  function FailureFrames(m: FailureLog, order: seq<Uuid>): (fs: seq<Frame>)
    requires forall k :: k in order ==> k in m
    ensures |fs| == |order|
  {
    if order == [] then []
    else
      var n := |order| - 1;
      FailureFrames(m, order[..n]) + [Frame(K_FAIL, RecordBytes(m[order[n]]))]
  }

  function OpFrames(t: Registry.Table, order: seq<Uuid>): (fs: seq<Frame>)
    requires forall k :: k in order ==> k in t
    ensures |fs| == |order|
  {
    if order == [] then []
    else
      var n := |order| - 1;
      OpFrames(t, order[..n]) + [Frame(K_OP, OpBytes(order[n], t[order[n]]))]
  }

  function IdemFrames(m: Idempotency.Entries, order: seq<Idempotency.Key>): (fs: seq<Frame>)
    requires forall k :: k in order ==> k in m
    ensures |fs| == |order|
  {
    if order == [] then []
    else
      var n := |order| - 1;
      IdemFrames(m, order[..n]) + [Frame(K_ID, ViewBytes(Idempotency.ViewOf(m, order[n])))]
  }

  /** The orders in which the three maps happen to be iterated. */
  datatype Orders = Orders(failures: seq<Uuid>, ops: seq<Uuid>, idem: seq<Idempotency.Key>)

  /** The orders name keys of the maps only. */
  predicate Lists(o: Orders, v: StoreValue) {
    && (forall k :: k in o.failures ==> k in v.failures)
    && (forall k :: k in o.ops ==> k in v.ops)
    && (forall k :: k in o.idem ==> k in v.idem)
  }

  ghost predicate Enumerates(o: Orders, v: StoreValue): (yes: bool)
    ensures yes ==> Lists(o, v)
  {
    && Idempotency.Enumerates(o.failures, v.failures.Keys)
    && Idempotency.Enumerates(o.ops, v.ops.Keys)
    && Idempotency.Enumerates(o.idem, v.idem.Keys)
  }

  /** Everything a save writes before the ownership frame. */
  function TableFrames(v: StoreValue, o: Orders): seq<Frame>
    requires Lists(o, v)
  {
    [Frame(K_HEADER, CountsBytes(Count32(|v.failures|), Count32(|v.ops|), Count32(|v.idem|)))]
    + FailureFrames(v.failures, o.failures) + OpFrames(v.ops, o.ops) + IdemFrames(v.idem, o.idem)
  }

  function OwnerFrame(v: StoreValue): Frame {
    Frame(K_OWN, HolderBytes(v.own))
  }

  function ConcatFrames(fs: seq<Frame>): seq<byte> {
    if fs == [] then [] else ConcatFrames(fs[..|fs| - 1]) + FrameBytes(fs[|fs| - 1])
  }

  /** The bytes of a saved snapshot. */
  function SnapshotBytes(v: StoreValue, o: Orders): seq<byte>
    requires Lists(o, v)
  {
    ConcatFrames(TableFrames(v, o) + [OwnerFrame(v)])
  }

  // ------------------------------------------------------------------- parsing

  function ParseCounts(s: seq<byte>): Option<((u32, u32, u32), seq<byte>)> {
    var (magic, s) :- ParseU32(s);
    if magic != MAGIC then None else
    var (version, s) :- ParseU16(s);
    if version != VERSION then None else
    var (fails, s) :- ParseU32(s);
    var (ops, s) :- ParseU32(s);
    var (ids, s) :- ParseU32(s);
    Some(((fails, ops, ids), s))
  }

  function ParseOp(s: seq<byte>): Option<((Uuid, Registry.Runtime), seq<byte>)> {
    var (op, s) :- ParseId(s);
    var (state, s) :- ParseU32(s);
    var (attempts, s) :- ParseU32(s);
    var (recorded, s) :- ParseBool(s);
    var (outcome, s) :- ParseText(s);
    var (idempotent, s) :- ParseBool(s);
    var (idemKey, s) :- ParseId(s);
    var (authority, s) :- ParseEnvelope(s);
    if !ValidAuthority(authority) then None else
    var (terminal, s) :- ParseEnvelope(s);
    if !ValidAuthority(terminal) then None
    else Some(((op, Registry.Runtime(state, authority, terminal, recorded, attempts, outcome, idempotent, idemKey)), s))
  }

  function ParseView(s: seq<byte>): Option<(Idempotency.EntryView, seq<byte>)> {
    var (op, s) :- ParseId(s);
    var (key, s) :- ParseId(s);
    var (hash, s) :- ParseU64(s);
    var (state, s) :- ParseU32(s);
    var (metadata, s) :- ParseText(s);
    Some((Idempotency.EntryView(Idempotency.Key(op, key), hash, state, metadata), s))
  }

  function ParseHolder(s: seq<byte>): Option<(Ownership.Holder, seq<byte>)> {
    var (owner, s) :- ParseEnum(9, s);
    var (generation, s) :- ParseU64(s);
    var (boot, s) :- ParseId(s);
    Some((Ownership.Holder(owner, generation, boot), s))
  }

  /** What the loop of load has gathered so far. */
  datatype Partial = Partial(
    first: bool, nfail: u32, nop: u32, nid: u32,
    failures: seq<FailureRecord>, opids: seq<Uuid>, runtimes: seq<Registry.Runtime>,
    views: seq<Idempotency.EntryView>, own: Ownership.Holder)

  datatype Progress = Going(st: Partial) | Refused(own: Ownership.Holder)

  function Begin(own: Ownership.Holder): Partial {
    Partial(true, 0, 0, 0, [], [], [], [], own)
  }

  /** One frame: the first is the header whatever its kind says, and the ownership
      frame acts on the live ownership at once. */
  function Absorb(st: Partial, f: Frame): Progress {
    if st.first then
      match ParseCounts(f.payload)
      case None => Refused(st.own)
      case Some(((fails, ops, ids), _)) => Going(st.(first := false, nfail := fails, nop := ops, nid := ids))
    else if f.kind == K_FAIL then
      match ParseRecord(f.payload)
      case None => Refused(st.own)
      case Some((r, _)) => Going(st.(failures := st.failures + [r]))
    else if f.kind == K_OP then
      match ParseOp(f.payload)
      case None => Refused(st.own)
      case Some(((op, rt), _)) => Going(st.(opids := st.opids + [op], runtimes := st.runtimes + [rt]))
    else if f.kind == K_ID then
      match ParseView(f.payload)
      case None => Refused(st.own)
      case Some((v, _)) => Going(st.(views := st.views + [v]))
    else if f.kind == K_OWN then
      match ParseHolder(f.payload)
      case None => Refused(st.own)
      case Some((h, _)) =>
        Going(st.(own := Ownership.Step(st.own, Ownership.Adopt(h.owner, h.generation, h.boot))))
    else Refused(st.own)
  }

  /** The frame loop of load, from what is left of the file. */
  function Scan(s: seq<byte>, st: Partial): Progress
    decreases |s|
  {
    if s == [] then Going(st)
    else
      match ParseFrame(s)
      case None => Refused(st.own)
      case Some((f, rest)) =>
        FrameSpells(s);
        match Absorb(st, f)
        case Refused(own) => Refused(own)
        case Going(st') => Scan(rest, st')
  }

  /** The failure map, or None when two records share an id. */
  function FailureMap(rs: seq<FailureRecord>): Option<FailureLog> {
    if rs == [] then Some(map[])
    else
      var n := |rs| - 1;
      var m :- FailureMap(rs[..n]);
      if rs[n].ids.failureId in m then None else Some(m[rs[n].ids.failureId := rs[n]])
  }

  predicate NoRepeats<T(==)>(s: seq<T>) {
    forall i, j :: 0 <= i < j < |s| ==> s[i] != s[j]
  }

  function OpTable(ids: seq<Uuid>, rts: seq<Registry.Runtime>): Registry.Table
    requires |ids| == |rts|
  {
    if ids == [] then map[]
    else
      var n := |ids| - 1;
      Registry.Step(OpTable(ids[..n], rts[..n]), Registry.Restore(ids[n], rts[n])).0
  }

  function EntryOf(v: Idempotency.EntryView): Idempotency.Entry {
    Idempotency.Entry(v.hash, v.state, v.metadata, UNSET)
  }

  function EntryMap(vs: seq<Idempotency.EntryView>): Idempotency.Entries {
    if vs == [] then map[]
    else
      var n := |vs| - 1;
      EntryMap(vs[..n])[vs[n].key := EntryOf(vs[n])]
  }

  datatype LoadResult =
    | Loaded(failures: FailureLog, ops: Registry.Table, idem: Idempotency.Entries)
    | Rejected(own: Ownership.Holder)   // what the ownership was left at

  predicate CountsMatch(st: Partial) {
    |st.failures| == st.nfail && |st.runtimes| == st.nop && |st.views| == st.nid
  }

  /** The validation and commit that follow the loop. */
  function Finish(st: Partial): LoadResult {
    if !CountsMatch(st) || FailureMap(st.failures).None? || !NoRepeats(st.opids) || |st.opids| != |st.runtimes|
    then Rejected(st.own)
    else Loaded(FailureMap(st.failures).value, OpTable(st.opids, st.runtimes), EntryMap(st.views))
  }

  /** load, on the contents of the file and the ownership held before the call. */
  function LoadBytes(data: seq<byte>, own: Ownership.Holder): LoadResult {
    if data == [] then Rejected(own)
    else
      match Scan(data, Begin(own))
      case Refused(left) => Rejected(left)
      case Going(st) => Finish(st)
  }
}

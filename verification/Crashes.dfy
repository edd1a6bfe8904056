/** Runs of a failure store that saves snapshots, crashes, and starts again from
    whatever the last save left in the file. */
module Crashes {
  import opened Bytes
  import opened Ids
  import opened Authority
  import opened Codec
  import opened FailureRecords
  import opened Frames
  import opened Operation
  import opened Snapshot
  import opened SnapshotPayloads
  import opened SnapshotLaws
  import Registry
  import Idempotency
  import Ownership
  import Store

  datatype StoreCall =
    | OnOps(call: Registry.Call)
    | OnIdem(idemCall: Idempotency.Call)
    | PriorResult(key: Idempotency.Key)
    | OnLog(record: FailureRecord)
    | OnOwner(ownCall: Ownership.Call)

  datatype Reply =
    | Applied(result: Registry.ApplyResult)
    | Answered(verdict: Option<Idempotency.Verdict>)
    | Prior(metadata: Option<Text>)
    | Appended(taken: bool)
    | OwnerChanged(granted: bool)

  function Perform(v: StoreValue, c: StoreCall): (StoreValue, Reply) {
    match c
    case OnOps(call) =>
      var (ops, result) := Registry.Step(v.ops, call);
      (v.(ops := ops), Applied(result))
    case OnIdem(call) =>
      var (idem, verdict) := Idempotency.Step(v.idem, call);
      (v.(idem := idem), Answered(verdict))
    case PriorResult(k) => (v, Prior(Idempotency.PriorResultOf(v.idem, k)))
    case OnLog(r) =>
      var (failures, taken) := Store.Append(v.failures, r);
      (v.(failures := failures), Appended(taken))
    case OnOwner(call) =>
      (v.(own := Ownership.Step(v.own, call)), OwnerChanged(Ownership.Granted(v.own, call)))
  }

  /** What a sequence of calls answers when nothing crashes. */
  function CallReplies(v: StoreValue, cs: seq<StoreCall>): seq<Reply>
    decreases cs
  {
    if cs == [] then [] else [Perform(v, cs[0]).1] + CallReplies(Perform(v, cs[0]).0, cs[1..])
  }

  const FRESH := StoreValue(map[], map[], map[], Ownership.UNASSIGNED)

  // --------------------------------------------------------- runs with crashes

  /** A save truncates the file and writes the snapshot from the front; a failing
      stream or a crash on the way loses some bytes at its end. */
  datatype Event = Call(call: StoreCall) | Save(orders: Orders, lost: nat) | Crash

  /** The store of the running process and the contents of the state file, if there is one. */
  datatype Machine = Machine(live: StoreValue, file: Option<seq<byte>>)

  const START := Machine(FRESH, None)

  function FileAfter(v: StoreValue, o: Orders, lost: nat): seq<byte>
    requires Lists(o, v)
  {
    var s := SnapshotBytes(v, o);
    if lost <= |s| then s[..|s| - lost] else []
  }

  /** The store of a new process that loads the file; it stays empty when the file is
      missing or refused. */
  function Restarted(file: Option<seq<byte>>): StoreValue {
    match file
    case None => FRESH
    case Some(data) =>
      match LoadBytes(data, Ownership.UNASSIGNED)
      case Loaded(failures, ops, idem) => StoreValue(failures, ops, idem, Ownership.UNASSIGNED)
      case Rejected(own) => FRESH.(own := own)
  }

  predicate Possible(m: Machine, e: Event) {
    e.Save? ==> Lists(e.orders, m.live)
  }

  function Next(m: Machine, e: Event): Machine
    requires Possible(m, e)
  {
    match e
    case Call(c) => m.(live := Perform(m.live, c).0)
    case Save(o, lost) => m.(file := Some(FileAfter(m.live, o, lost)))
    case Crash => m.(live := Restarted(m.file))
  }

  predicate Countable(v: StoreValue) {
    |v.failures| < 0x1_0000_0000 && |v.ops| < 0x1_0000_0000 && |v.idem| < 0x1_0000_0000
  }

  /** A record whose encoding the format can count. */
  predicate Sizeable(c: StoreCall) {
    c.OnLog? ==> |RecordBytes(c.record)| < 0x1_0000_0000
  }

  /** No record and no table is too large to be counted in 32 bits, and every save
      iterates the maps in some order. */
  ghost predicate Feasible(m: Machine, es: seq<Event>)
    decreases es
  {
    if es == [] then true
    else
      && (match es[0]
          case Call(c) => Sizeable(c)
          case Save(o, _) => Countable(m.live) && Enumerates(o, m.live)
          case Crash => true)
      && Feasible(Next(m, es[0]), es[1..])
  }

  /** What the calls of a run answer, with its saves and crashes. */
  ghost function Replies(m: Machine, es: seq<Event>): seq<Reply>
    requires Feasible(m, es)
    decreases es
  {
    if es == [] then []
    else
      (if es[0].Call? then [Perform(m.live, es[0].call).1] else []) + Replies(Next(m, es[0]), es[1..])
  }

  // -------------------------------------------- the same run without any bytes

  /** The size of the ownership frame at the end of a snapshot. */
  const OWNER_SIZE: nat := 47

  /** The file holds all tables: it is whole, or lacks just the ownership frame. */
  predicate Whole(lost: nat) {
    lost == 0 || lost == OWNER_SIZE
  }

  /** What the format gives back of a value: over-long text is emptied, the authority
      of idempotency entries and the ownership are dropped. */
  function Reloaded(v: StoreValue): StoreValue {
    StoreValue(ClipFailures(v.failures), ClipOps(v.ops), ClipIdem(v.idem), Ownership.UNASSIGNED)
  }

  /** What a crash puts back after a save. */
  ghost function Kept(v: StoreValue, lost: nat): StoreValue {
    if Whole(lost) && Loadable(v) then Reloaded(v) else FRESH
  }

  /** The specification: a crash goes back to the value at the last save, or to an
      empty store if that save was torn, could not be loaded, or never came. */
  ghost function IdealReplies(live: StoreValue, kept: StoreValue, es: seq<Event>): seq<Reply>
    decreases es
  {
    if es == [] then []
    else
      match es[0]
      case Call(c) => [Perform(live, c).1] + IdealReplies(Perform(live, c).0, kept, es[1..])
      case Save(_, lost) => IdealReplies(live, Kept(live, lost), es[1..])
      case Crash => IdealReplies(kept, kept, es[1..])
  }

  /** What holds of every store that is reached: records under their own ids, none too large. */
  ghost predicate Sound(v: StoreValue) {
    Keyed(v.failures) && forall k :: k in v.failures ==> |RecordBytes(v.failures[k])| < 0x1_0000_0000
  }

  lemma SoundIsStorable(v: StoreValue)
    requires Sound(v) && Countable(v)
    ensures Storable(v)
  {
    hide RecordBytes;
  }

  lemma PerformSound(v: StoreValue, c: StoreCall)
    requires Sound(v) && Sizeable(c)
    ensures Sound(Perform(v, c).0)
  {
    hide RecordBytes, Registry.Step, Idempotency.Step, Store.Appendable;
  }

  lemma ClippedSize(r: FailureRecord)
    ensures |RecordBytes(ClipRecord(r))| <= |RecordBytes(r)|
  {
    hide IdentityBytes, EffectsBytes, HandlingBytes, EnvelopeBytes, IdsBytes, IdBytes, U32Bytes;
  }

  lemma ReloadedSound(v: StoreValue)
    requires Sound(v)
    ensures Sound(Reloaded(v))
  {
    hide RecordBytes;
    forall k | k in v.failures ensures |RecordBytes(ClipRecord(v.failures[k]))| < 0x1_0000_0000 {
      ClippedSize(v.failures[k]);
    }
  }

  lemma FreshSound()
    ensures Sound(FRESH)
  {
  }

  lemma OwnerSize(v: StoreValue)
    ensures |FrameBytes(OwnerFrame(v))| == OWNER_SIZE
  {
    hide HolderBytes, FrameBody;
  }

  lemma SnapshotHoldsOwner(v: StoreValue, o: Orders)
    requires Enumerates(o, v)
    ensures |SnapshotBytes(v, o)| > OWNER_SIZE
  {
    hide ConcatFrames, TableFrames, OwnerFrame, FrameBytes, Enumerates;
    SavedParts(v, o);
    OwnerSize(v);
    FramesSize(TableFrames(v, o));
    TablesStartWithHeader(v, o);
  }

  lemma TablesStartWithHeader(v: StoreValue, o: Orders)
    requires Enumerates(o, v)
    ensures TableFrames(v, o) != []
  {
    hide CountsBytes, FailureFrames, OpFrames, IdemFrames;
  }

  /** What a save leaves in the file, loaded by a new process. */
  lemma SavedFileLoads(v: StoreValue, o: Orders, lost: nat)
    requires Storable(v) && Enumerates(o, v)
    ensures Restarted(Some(FileAfter(v, o, lost))) == Kept(v, lost)
  {
    hide LoadBytes, SnapshotBytes, Enumerates, Lists, Storable, Loadable, OwnerFrame, ClipFailures, ClipOps, ClipIdem;
    var s := SnapshotBytes(v, o);
    OwnerSize(v);
    SnapshotHoldsOwner(v, o);
    SavedSnapshotLoads(v, o, Ownership.UNASSIGNED);
    if lost == 0 {
      assert s[..|s|] == s;
    } else {
      var n := if lost <= |s| then |s| - lost else 0;
      TruncatedSnapshot(v, o, Ownership.UNASSIGNED, n);
      assert s[..0] == [];
    }
  }

  /** The machine and its specification side by side. */
  ghost predicate Follows(m: Machine, live: StoreValue, kept: StoreValue) {
    m.live == live && Sound(live) && Restarted(m.file) == kept && Sound(kept)
  }

  lemma SaveFollows(m: Machine, live: StoreValue, kept: StoreValue, o: Orders, lost: nat)
    requires Follows(m, live, kept) && Countable(live) && Enumerates(o, live)
    ensures Follows(Next(m, Save(o, lost)), live, Kept(live, lost))
  {
    hide Sound, FileAfter, Restarted, Countable, Enumerates, Loadable, Reloaded, Whole, Storable;
    SoundIsStorable(live);
    SavedFileLoads(live, o, lost);
    ReloadedSound(live);
    FreshSound();
  }

  lemma {:induction false} RunFollows(m: Machine, live: StoreValue, kept: StoreValue, es: seq<Event>)
    requires Follows(m, live, kept) && Feasible(m, es)
    ensures Replies(m, es) == IdealReplies(live, kept, es)
    decreases es
  {
    hide Perform, Sound, Sizeable, Restarted, FileAfter, Countable, Enumerates, Kept;
    if es != [] {
      match es[0]
      case Call(c) =>
        PerformSound(live, c);
        RunFollows(Next(m, es[0]), Perform(live, c).0, kept, es[1..]);
      case Save(o, lost) =>
        SaveFollows(m, live, kept, o, lost);
        RunFollows(Next(m, es[0]), live, Kept(live, lost), es[1..]);
      case Crash =>
        RunFollows(Next(m, es[0]), kept, kept, es[1..]);
    }
  }

  lemma StartFollows()
    ensures Follows(START, FRESH, FRESH)
  {
    FreshSound();
  }

  /** Crash safety over whole runs: in every run of calls, saves and crashes from a new
      store, every call answers what it would answer if a crash put back exactly what
      the last save kept, whatever the iteration orders. A save that was torn anywhere
      but at its ownership frame, or that holds something load refuses, puts back an
      empty store, never a part. */
  lemma CrashGoesBackToLastSave(es: seq<Event>)
    requires Feasible(START, es)
    ensures Replies(START, es) == IdealReplies(FRESH, FRESH, es)
  {
    hide *;
    StartFollows();
    RunFollows(START, FRESH, FRESH, es);
  }

  function CallsOf(es: seq<Event>): seq<StoreCall>
    decreases es
  {
    if es == [] then []
    else if es[0].Call? then [es[0].call] + CallsOf(es[1..])
    else CallsOf(es[1..])
  }

  // ------------------------------------------------ what a crash forgets

  /** A crash before the save is noticed: the same request is new a second time. */
  lemma UnsavedBeginForgotten(k: Idempotency.Key, hash: u64, authority: Envelope)
    ensures var begin := Call(OnIdem(Idempotency.Begin(k, hash, authority)));
            && Feasible(START, [begin, Crash, begin])
            && Replies(START, [begin, Crash, begin])
               == [Answered(Some(Idempotency.NEW)), Answered(Some(Idempotency.NEW))]
            && CallReplies(FRESH, CallsOf([begin, Crash, begin]))
               == [Answered(Some(Idempotency.NEW)), Answered(Some(Idempotency.IN_PROGRESS_REPLAY))]
  {
    hide Perform, Restarted;
    var c := OnIdem(Idempotency.Begin(k, hash, authority));
    var begin := Call(c);
    BeginTwice(k, hash, authority);
    assert [begin, Crash, begin][1..] == [Crash, begin] && [Crash, begin][1..] == [begin] && [begin][1..] == [];
    var m1 := Next(START, begin);
    assert Next(m1, Crash) == START;
    assert Feasible(START, [begin]);
    var later := [Crash, begin];
    assert later[0] == Crash && later[1..] == [begin] && Feasible(Next(m1, later[0]), later[1..]);
    assert Feasible(m1, later);
    assert Replies(START, [begin]) == [Perform(FRESH, c).1];
    assert Replies(m1, later) == [] + Replies(START, [begin]);
    assert CallsOf([begin]) == [c] && CallsOf([Crash, begin]) == [c];
    assert CallsOf([begin, Crash, begin]) == [c] + [c] == [c, c];
    assert [c, c][1..] == [c] && [c][1..] == [];
    assert CallReplies(m1.live, [c]) == [Perform(m1.live, c).1];
  }

  lemma BeginTwice(k: Idempotency.Key, hash: u64, authority: Envelope)
    ensures var c := OnIdem(Idempotency.Begin(k, hash, authority));
            && Restarted(None) == FRESH
            && Perform(FRESH, c).1 == Answered(Some(Idempotency.NEW))
            && Perform(Perform(FRESH, c).0, c).1 == Answered(Some(Idempotency.IN_PROGRESS_REPLAY))
  {
  }

  /** Ownership is not given back, so over a restart two owners can be granted one
      generation, though the store was wholly saved between them. */
  lemma OwnershipForgotten(a: Ownership.Call, b: Ownership.Call)
    requires a.owner != Ownership.NONE && b.owner != Ownership.NONE && a.generation == b.generation != 0
    ensures var es := [Call(OnOwner(a)), Save(Orders([], [], []), 0), Crash, Call(OnOwner(b))];
            Feasible(START, es) && Replies(START, es) == [OwnerChanged(true), OwnerChanged(true)]
  {
    hide Restarted, FileAfter, Loadable, Reloaded, Kept;
    var first, save, second := Call(OnOwner(a)), Save(Orders([], [], []), 0), Call(OnOwner(b));
    var es := [first, save, Crash, second];
    var m1 := Next(START, first);
    OwnedFits(a);
    var m2 := Next(m1, save);
    var m3 := Next(m2, Crash);
    assert es[1..] == [save, Crash, second] && [save, Crash, second][1..] == [Crash, second];
    assert [Crash, second][1..] == [second] && [second][1..] == [];
    assert Feasible(m3, [second]);
    assert Feasible(m2, [Crash, second]);
    assert Feasible(m1, [save, Crash, second]);
    assert m3.live == FRESH;
    assert Replies(m3, [second]) == [Perform(FRESH, OnOwner(b)).1];
    assert Replies(m2, [Crash, second]) == [] + Replies(m3, [second]);
    assert Replies(m1, [save, Crash, second]) == [] + Replies(m2, [Crash, second]);
  }

  lemma OwnedFits(a: Ownership.Call)
    ensures var v := Perform(FRESH, OnOwner(a)).0;
            var o := Orders([], [], []);
            && Countable(v) && Enumerates(o, v)
            && Restarted(Some(FileAfter(v, o, 0))) == FRESH
  {
    hide Restarted, FileAfter, Ownership.Step;
    var v := Perform(FRESH, OnOwner(a)).0;
    SavedFileLoads(v, Orders([], [], []), 0);
    assert Loadable(v) && Reloaded(v) == FRESH;
  }

  /** The failure log is given back: a record that was taken and saved is refused as a
      duplicate after a crash. */
  lemma LogRemembered(r: FailureRecord)
    requires r.ids.failureId != NULL_ID && r.ids.operation != NULL_ID && r.ids.attempt != NULL_ID
    requires ValidAuthority(r.authority) && |r.dependencies| <= 4096
    requires |r.cause.summary| <= 0xFFFF && |r.cause.reason| <= 0xFFFF
    ensures var es := [Call(OnLog(r)), Save(Orders([r.ids.failureId], [], []), 0), Crash, Call(OnLog(r))];
            Feasible(START, es) && Replies(START, es) == [Appended(true), Appended(false)]
  {
    hide Restarted, FileAfter, Loadable, Reloaded, Kept, RecordBytes;
    var first, save := Call(OnLog(r)), Save(Orders([r.ids.failureId], [], []), 0);
    var es := [first, save, Crash, first];
    RecordSize(r);
    LoggedFits(r);
    var m1 := Next(START, first);
    var m2 := Next(m1, save);
    var m3 := Next(m2, Crash);
    assert es[1..] == [save, Crash, first] && [save, Crash, first][1..] == [Crash, first];
    assert [Crash, first][1..] == [first] && [first][1..] == [];
    assert Feasible(m3, [first]);
    assert Feasible(m2, [Crash, first]);
    assert Feasible(m1, [save, Crash, first]);
    assert m3.live == m1.live;
    assert Replies(m3, [first]) == [Perform(m1.live, OnLog(r)).1];
    assert Replies(m2, [Crash, first]) == [] + Replies(m3, [first]);
    assert Replies(m1, [save, Crash, first]) == [] + Replies(m2, [Crash, first]);
  }

  lemma LoggedFits(r: FailureRecord)
    requires Store.Appendable(r) && |r.dependencies| <= 4096 && ShortRecord(r)
    requires |RecordBytes(r)| < 0x1_0000_0000
    ensures var v, o := Perform(FRESH, OnLog(r)).0, Orders([r.ids.failureId], [], []);
            && Countable(v) && Enumerates(o, v)
            && Restarted(Some(FileAfter(v, o, 0))) == v
  {
    hide Restarted, FileAfter, RecordBytes, ClipRecord;
    var v, o := Perform(FRESH, OnLog(r)).0, Orders([r.ids.failureId], [], []);
    assert v.failures == map[r.ids.failureId := r];
    SavedFileLoads(v, o, 0);
    ClipIsIdentity(r);
    assert Loadable(v);
    assert ClipFailures(v.failures) == v.failures;
    assert Reloaded(v) == v;
  }

  // ------------------------------------------ stores that a snapshot does not hold

  /** A store that saves a snapshot it cannot load: an operation created under an
      attempt without a generation. */
  lemma OwnSnapshotRefused(op: Uuid, attempt: Uuid, own: Ownership.Holder)
    requires attempt != NULL_ID
    ensures var v := Perform(FRESH, OnOps(Registry.Create(op, UNSET.(attempt := attempt)))).0;
            var o := Orders([], [op], []);
            Storable(v) && Enumerates(o, v) && LoadBytes(SnapshotBytes(v, o), own) == Rejected(own)
  {
    hide LoadBytes, SnapshotBytes;
    var v := Perform(FRESH, OnOps(Registry.Create(op, UNSET.(attempt := attempt)))).0;
    assert v.ops == map[op := Registry.Created(UNSET.(attempt := attempt))];
    assert !ValidRuntime(v.ops[op]);
    SavedSnapshotLoads(v, Orders([], [op], []), own);
  }

  function Recorded(op: Uuid, e: Envelope, outcome: Text): StoreValue {
    var v1 := Perform(FRESH, OnOps(Registry.Create(op, e))).0;
    var v2 := Perform(v1, OnOps(Registry.Dispatch(op, e))).0;
    Perform(v2, OnOps(Registry.RecordTerminal(op, e, outcome))).0
  }

  lemma RecordedCancels(op: Uuid, e: Envelope, outcome: Text)
    requires !e.IsUnset()
    ensures var v := Recorded(op, e, outcome);
            v == FRESH.(ops := map[op := Registry.Runtime(CANCELLED, e, e, true, 1, outcome, false, NULL_ID)])
  {
    CurrentIsAccepted(e);
  }

  /** A record that a snapshot loses: an outcome too long for its length field comes
      back empty, and repeating it is then no longer answered OK. */
  lemma OverlongOutcomeForgotten(op: Uuid, e: Envelope, outcome: Text, own: Ownership.Holder)
    requires !e.IsUnset() && ValidAuthority(e) && |outcome| > 0xFFFF
    ensures var v := Recorded(op, e, outcome);
            var o := Orders([], [op], []);
            var again := Registry.RecordTerminal(op, e, outcome);
            && Storable(v) && Enumerates(o, v)
            && var r := LoadBytes(SnapshotBytes(v, o), own);
            && r.Loaded? && op in r.ops && r.ops[op].outcome == []
            && Registry.Step(v.ops, again).1 == Registry.OK
            && Registry.Step(r.ops, again).1 == Registry.ALREADY_TERMINAL
  {
    hide LoadBytes, SnapshotBytes, Recorded;
    var v := Recorded(op, e, outcome);
    RecordedCancels(op, e, outcome);
    assert ValidRuntime(v.ops[op]);
    SavedSnapshotLoads(v, Orders([], [op], []), own);
  }
}

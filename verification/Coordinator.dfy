/** The coordinator protocol as interleaved steps. Each step is one registry call
    of some handler thread, because the handlers do not hold one lock across
    their calls; between two calls of a handler any other step may come. Worker
    messages echo envelopes the coordinator issued, to any operation, any number
    of times and in any order. The process can crash at any point and start again
    from its state file; worker messages outlive it. */
module Coordinator {
  import opened Bytes
  import opened Ids
  import opened Authority
  import opened Operation
  import opened Registry
  import opened Codec
  import opened FailureRecords
  import Ownership
  import RegistryRuns
  import Snapshot
  import Store

  /** What a handler thread still has to do. The loss path keeps only the authority it
      has read: which operation it acts on it reads anew at every call. */
  datatype Task =
    | ToCreate(op: Uuid, env: Envelope)
    | ToDispatch(op: Uuid, env: Envelope)
    | ToRun(op: Uuid, env: Envelope)
    | ToConfirm(op: Uuid, env: Envelope)
    | ToSave(op: Uuid, env: Envelope)
    | ToReportLoss(env: Envelope)
    | ToRedispatch(env: Envelope)

  /** What the state file holds, with the dispatches that led to it. */
  datatype Checkpoint = Checkpoint(table: Table, latest: map<Uuid, Envelope>, log: Snapshot.FailureLog)

  datatype System = System(
    table: Table,
    own: Ownership.Holder,
    log: Snapshot.FailureLog,
    kept: Checkpoint,
    issued: set<Envelope>,          // envelopes built so far
    tasks: multiset<Task>,          // handlers between two registry calls
    latest: map<Uuid, Envelope>,    // last dispatch answered OK that was not forgotten, by operation
    wins: map<Uuid, nat>,           // confirmations answered OK, by operation
    losses: map<Uuid, nat>)         // recorded outcomes forgotten by a crash, by operation

  const NOTHING := Checkpoint(map[], map[], map[])

  const START := System(map[], Ownership.UNASSIGNED, map[], NOTHING, {}, multiset{}, map[], map[], map[])

  datatype Event =
    | ClientDispatch(op: Uuid, boot: Uuid, attempt: Uuid)    // DISPATCH message
    | Running(op: Uuid, env: Envelope)                       // RUNNING message
    | Complete(op: Uuid, env: Envelope)                      // COMPLETE message, first call
    | Failure(op: Uuid, env: Envelope, ambiguous: bool)      // FAILURE message
    | Continue(task: Task)                                   // a message handler makes its next call
    | Save(task: Task, whole: bool)                          // it saves the state; the file may be torn
    | WorkerLost(op: Uuid, boot: Uuid)                       // loss path reads the authority, moves ownership
    | ReportLoss(env: Envelope, op: Uuid, record: FailureRecord)   // it logs and reports the failure
    | Redispatch(env: Envelope, op: Uuid, attempt: Uuid)     // it dispatches op again
    | NoReplacement(env: Envelope)                           // it finds no worker
    | Crash                                                  // the process dies and starts again

  /** The record the loss path builds, with its derived defaults. */
  function LossRecord(op: Uuid, env: Envelope, id: Uuid, timestamp: u64): FailureRecord {
    FailureRecord(
      Identity(id, op, NULL_ID, NULL_ID, env.attempt, NULL_ID, NULL_ID, NULL_ID, NULL_ID),
      Cause(4, 1, 0, [], [], 6), Effects(timestamp, 2, 2, 1), env, Handling(2, 1, 1, 2, Ownership.NONE, 6), NULL_ID, [])
  }

  const REPLACEMENT_WORKER: RecoveryOwner := 2

  predicate FreshAttempt(s: System, attempt: Uuid) {
    attempt != NULL_ID && forall e :: e in s.issued ==> e.attempt != attempt
  }

  predicate Enabled(s: System, e: Event) {
    match e
    case ClientDispatch(_, _, attempt) => FreshAttempt(s, attempt)
    case Running(_, env) => env in s.issued
    case Complete(_, env) => env in s.issued
    case Failure(_, env, _) => env in s.issued
    case Continue(task) => task in s.tasks && !task.ToSave? && !task.ToReportLoss? && !task.ToRedispatch?
    case Save(task, _) => task in s.tasks && task.ToSave?
    case WorkerLost(_, _) => true
    case ReportLoss(env, _, record) =>
      && ToReportLoss(env) in s.tasks
      && record == LossRecord(record.ids.operation, env, record.ids.failureId, record.effects.timestamp)
    case Redispatch(env, _, attempt) => ToRedispatch(env) in s.tasks && FreshAttempt(s, attempt)
    case NoReplacement(env) => ToRedispatch(env) in s.tasks
    case Crash => true
  }

  function CurrentAuthority(t: Table, op: Uuid): Envelope {
    if op in t then t[op].authority else UNSET
  }

  /** The authority a DISPATCH message is given. */
  function FirstEnvelope(boot: Uuid, attempt: Uuid): Envelope {
    Envelope(1, boot, attempt, NULL_ID, 1, 1, 0, 0)
  }

  function Called(s: System, c: Call): System {
    s.(table := Step(s.table, c).0)
  }

  function DispatchCalled(s: System, op: Uuid, env: Envelope): System {
    var (t, result) := Step(s.table, Dispatch(op, env));
    s.(table := t, latest := if result == OK then s.latest[op := env] else s.latest)
  }

  function Wins(s: System, op: Uuid): nat {
    if op in s.wins then s.wins[op] else 0
  }

  function ConfirmCalled(s: System, op: Uuid, env: Envelope): System {
    var (t, result) := Step(s.table, ConfirmCompletion(op, env));
    s.(table := t, wins := if result == OK then s.wins[op := Wins(s, op) + 1] else s.wins)
  }

  /** The next registry call of a message handler. */
  function Continued(s: System, task: Task): System
    requires Enabled(s, Continue(task))
  {
    var op, env := task.op, task.env;
    var rest := s.(tasks := s.tasks - multiset{task});
    match task
    case ToCreate(_, _) =>
      Called(rest, Create(op, env)).(tasks := rest.tasks + multiset{ToDispatch(op, env)})
    case ToDispatch(_, _) =>
      DispatchCalled(rest, op, env).(tasks := rest.tasks + multiset{ToRun(op, env)})
    case ToRun(_, _) => Called(rest, Run(op, env))
    case ToConfirm(_, _) =>
      ConfirmCalled(rest, op, env).(tasks := rest.tasks + multiset{ToSave(op, env)})
  }

  predicate IsMessage(e: Event) {
    e.ClientDispatch? || e.Running? || e.Complete? || e.Failure?
  }

  /** A message arrives: the handler's first call. */
  function Received(s: System, e: Event): System
    requires IsMessage(e)
  {
    match e
    case ClientDispatch(op, boot, attempt) =>
      var env := FirstEnvelope(boot, attempt);
      s.(issued := s.issued + {env}, tasks := s.tasks + multiset{ToCreate(op, env)})
    case Running(op, env) => Called(s, Run(op, env))
    case Complete(op, env) =>
      var s' := Called(s, ReportCompletion(op, env, false));
      if Step(s.table, ReportCompletion(op, env, false)).1 == OK
      then s'.(tasks := s'.tasks + multiset{ToConfirm(op, env)})
      else s'
    case Failure(op, env, ambiguous) => Called(s, ReportFailure(op, env, ambiguous))
  }

  predicate IsLoss(e: Event) {
    e.WorkerLost? || e.ReportLoss? || e.Redispatch? || e.NoReplacement?
  }

  /** The loss path goes one step. */
  function Recovering(s: System, e: Event): System
    requires IsLoss(e)
  {
    match e
    case WorkerLost(op, boot) =>
      var cur := CurrentAuthority(s.table, op);
      s.(own := Ownership.Step(s.own, Ownership.Transfer(REPLACEMENT_WORKER, Next(cur.recoveryGen), boot)),
         tasks := s.tasks + multiset{ToReportLoss(cur)})
    case ReportLoss(env, op, record) =>
      var rest := s.tasks - multiset{ToReportLoss(env)};
      var s' := Called(s, ReportFailure(op, env, true));
      s'.(log := Store.Append(s.log, record).0, tasks := rest + multiset{ToRedispatch(env)})
    case Redispatch(env, op, attempt) =>
      var next := env.NewAttempt(attempt);
      DispatchCalled(s.(issued := s.issued + {next}, tasks := s.tasks - multiset{ToRedispatch(env)}), op, next)
    case NoReplacement(env) => s.(tasks := s.tasks - multiset{ToRedispatch(env)})
  }

  function Saved(s: System, task: Task, whole: bool): System {
    s.(kept := if whole then Checkpoint(s.table, s.latest, s.log) else NOTHING, tasks := s.tasks - multiset{task})
  }

  function After(s: System, e: Event): System
    requires Enabled(s, e)
  {
    if IsMessage(e) then Received(s, e)
    else if IsLoss(e) then Recovering(s, e)
    else
      match e
      case Continue(task) => Continued(s, task)
      case Save(task, whole) => Saved(s, task, whole)
      case Crash => Restarted(s)
  }

  function Losses(s: System, op: Uuid): nat {
    if op in s.losses then s.losses[op] else 0
  }

  predicate IsRecorded(t: Table, op: Uuid) {
    op in t && t[op].recorded
  }

  /** The new process: what was saved, nobody owning recovery, and no handler running. */
  function Restarted(s: System): System {
    s.(table := s.kept.table, latest := s.kept.latest, log := s.kept.log,
       own := Ownership.UNASSIGNED, tasks := multiset{},
       losses := map op | op in s.losses.Keys + s.table.Keys ::
                   Losses(s, op) + if IsRecorded(s.table, op) && !IsRecorded(s.kept.table, op) then 1 else 0)
  }

  /** es is a run of the protocol from s. */
  ghost predicate IsRun(s: System, es: seq<Event>)
    decreases es
  {
    es == [] || (Enabled(s, es[0]) && IsRun(After(s, es[0]), es[1..]))
  }

  ghost function Final(s: System, es: seq<Event>): System
    requires IsRun(s, es)
    decreases es
  {
    if es == [] then s else Final(After(s, es[0]), es[1..])
  }

  // ------------------------------------------------------------------ invariant

  /** Attempt ids are set and name their envelope. */
  ghost predicate DistinctAttempts(issued: set<Envelope>) {
    && (forall e :: e in issued ==> e.attempt != NULL_ID)
    && (forall e, f :: e in issued && f in issued && e.attempt == f.attempt ==> e == f)
  }

  /** One operation against the envelope of its latest successful dispatch, if any. */
  predicate OperationInv(r: Runtime, issued: set<Envelope>, last: Option<Envelope>) {
    && r.authority in issued
    && (last.Some? ==> r.authority == last.value)
    && (r.state == CREATED || r.state == FAILED_KNOWN || r.state == FAILED_AMBIGUOUS
        || (last.Some? && r.state <= COMPLETION_CONFIRMED))
    && (r.state == COMPLETION_CONFIRMED <==> r.recorded)
    && (r.recorded ==> last.Some? && r.terminal == last.value)
    && (!r.recorded ==> r.terminal.IsUnset())
    && |r.outcome| <= |COMPLETED|
  }

  function Lookup(latest: map<Uuid, Envelope>, op: Uuid): Option<Envelope> {
    if op in latest then Some(latest[op]) else None
  }

  function Last(s: System, op: Uuid): Option<Envelope> {
    Lookup(s.latest, op)
  }

  ghost predicate TableInv(s: System) {
    && DistinctAttempts(s.issued)
    && (forall op :: op in s.table ==> OperationInv(s.table[op], s.issued, Last(s, op)))
    && (forall op :: op in s.latest ==> op in s.table)
    && (forall op :: Wins(s, op) == Losses(s, op) + if IsRecorded(s.table, op) then 1 else 0)
  }

  /** What was saved is as good as what is live, and no outcome in it has been forgotten. */
  ghost predicate KeptInv(s: System) {
    && (forall op :: op in s.kept.table ==>
          OperationInv(s.kept.table[op], s.issued, Lookup(s.kept.latest, op)))
    && (forall op :: op in s.kept.latest ==> op in s.kept.table)
    && Preserved(s.kept.table, s.table)
  }

  /** Every outcome on record in the one is on record, as it was, in the other. */
  ghost predicate Preserved(t: Table, t': Table) {
    forall op :: IsRecorded(t, op) ==> op in t' && t'[op] == t[op]
  }

  /** Records the loss path builds can be saved and loaded. */
  ghost predicate LogInv(log: Snapshot.FailureLog) {
    && Store.SoundLog(log)
    && forall k :: k in log ==> exists op, env, t :: log[k] == LossRecord(op, env, k, t)
  }

  ghost predicate TaskInv(s: System) {
    forall task :: task in s.tasks && !task.ToReportLoss? && !task.ToRedispatch? ==> task.env in s.issued
  }

  ghost predicate Inv(s: System) {
    TableInv(s) && TaskInv(s) && KeptInv(s) && LogInv(s.log) && LogInv(s.kept.log)
  }

  // ------------------------------------------------ one registry call at a time

  lemma FenceNamesAttempt(c: Envelope, cur: Envelope, terminal: Envelope)
    requires cur.attempt != NULL_ID
    ensures FenceCompletion(c, cur, terminal) == Accepted ==> c.attempt == cur.attempt
    ensures FenceFailure(c, cur) == Accepted ==> c.attempt == cur.attempt
  {
  }

  /** The calls of worker messages and of the loss report: no dispatch, no confirmation. */
  lemma MessageKeeps(r: Runtime, c: Call, issued: set<Envelope>, last: Option<Envelope>)
    requires OperationInv(r, issued, last)
    requires c.Run? || (c.ReportCompletion? && !c.partial) || c.ReportFailure? || c.Create?
    ensures OperationInv(Apply(r, c).0, issued, last)
    ensures Apply(r, c).0.recorded == r.recorded
  {
  }

  lemma DispatchKeeps(r: Runtime, op: Uuid, env: Envelope, issued: set<Envelope>, last: Option<Envelope>)
    requires OperationInv(r, issued, last) && env in issued
    ensures OperationInv(Apply(r, Dispatch(op, env)).0, issued,
                         if Apply(r, Dispatch(op, env)).1 == OK then Some(env) else last)
    ensures Apply(r, Dispatch(op, env)).0.recorded == r.recorded
  {
  }

  lemma ConfirmKeeps(r: Runtime, op: Uuid, env: Envelope, issued: set<Envelope>, last: Option<Envelope>)
    requires DistinctAttempts(issued) && OperationInv(r, issued, last) && env in issued
    ensures OperationInv(Apply(r, ConfirmCompletion(op, env)).0, issued, last)
    ensures Apply(r, ConfirmCompletion(op, env)).1 == OK ==> !r.recorded
    ensures Apply(r, ConfirmCompletion(op, env)).0.recorded
            == (r.recorded || Apply(r, ConfirmCompletion(op, env)).1 == OK)
  {
    FenceNamesAttempt(env, r.authority, r.terminal);
  }

  lemma CreateKeeps(env: Envelope, issued: set<Envelope>)
    requires env in issued
    ensures OperationInv(Created(env), issued, None) && !Created(env).recorded
  {
  }

  /** Replacing one operation, its latest dispatch and its win count together. */
  lemma UpdateKeeps(s: System, s': System, op: Uuid, r: Runtime)
    requires TableInv(s)
    requires s'.issued == s.issued && s'.table == s.table[op := r]
    requires forall o :: o in s'.latest ==> o == op || o in s.latest
    requires forall o :: o != op ==> Last(s', o) == Last(s, o) && Wins(s', o) == Wins(s, o)
    requires s'.losses == s.losses
    requires OperationInv(r, s.issued, Last(s', op))
    requires Wins(s', op) == Losses(s, op) + if r.recorded then 1 else 0
    ensures TableInv(s')
  {
    hide OperationInv, Last, Wins, Losses;
    assert forall o :: Losses(s', o) == Losses(s, o) by {
      SameLosses(s, s');
    }
  }

  lemma SameLosses(s: System, s': System)
    requires s'.losses == s.losses
    ensures forall o :: Losses(s', o) == Losses(s, o)
  {
  }

  lemma Untouched(s: System, s': System)
    requires s'.latest == s.latest && s'.wins == s.wins
    ensures forall o :: Last(s', o) == Last(s, o) && Wins(s', o) == Wins(s, o)
  {
  }

  lemma CalledKeeps(s: System, c: Call)
    requires TableInv(s)
    requires c.Run? || (c.ReportCompletion? && !c.partial) || c.ReportFailure? || (c.Create? && c.env in s.issued)
    ensures TableInv(Called(s, c))
  {
    hide OperationInv, Apply, Wins, Created;
    var s', op := Called(s, c), c.op;
    Untouched(s, s');
    if op in s.table {
      MessageKeeps(s.table[op], c, s.issued, Last(s, op));
      UpdateKeeps(s, s', op, Apply(s.table[op], c).0);
    } else if c.Create? {
      CreateKeeps(c.env, s.issued);
      UpdateKeeps(s, s', op, Created(c.env));
    } else {
      assert s' == s;
    }
  }

  lemma DispatchCalledKeeps(s: System, op: Uuid, env: Envelope)
    requires TableInv(s) && env in s.issued
    ensures TableInv(DispatchCalled(s, op, env))
  {
    hide OperationInv, Apply;
    var s' := DispatchCalled(s, op, env);
    if op in s.table {
      DispatchKeeps(s.table[op], op, env, s.issued, Last(s, op));
      UpdateKeeps(s, s', op, Apply(s.table[op], Dispatch(op, env)).0);
    } else {
      assert s' == s;
    }
  }

  lemma ConfirmCalledKeeps(s: System, op: Uuid, env: Envelope)
    requires TableInv(s) && env in s.issued
    ensures TableInv(ConfirmCalled(s, op, env))
  {
    hide OperationInv, Apply;
    var s' := ConfirmCalled(s, op, env);
    if op in s.table {
      ConfirmKeeps(s.table[op], op, env, s.issued, Last(s, op));
      UpdateKeeps(s, s', op, Apply(s.table[op], ConfirmCompletion(op, env)).0);
    } else {
      assert s' == s;
    }
  }

  lemma IssueKeeps(s: System, env: Envelope)
    requires TableInv(s) && FreshAttempt(s, env.attempt)
    ensures TableInv(s.(issued := s.issued + {env}))
  {
    var s' := s.(issued := s.issued + {env});
    assert forall o :: Last(s', o) == Last(s, o);
    assert forall o :: Wins(s', o) == Wins(s, o) && Losses(s', o) == Losses(s, o);
  }

  /** The table invariant looks at the table, the envelopes and the counts only. */
  lemma TasksKeep(s: System, s': System)
    requires TableInv(s)
    requires s'.table == s.table && s'.issued == s.issued && s'.latest == s.latest
    requires s'.wins == s.wins && s'.losses == s.losses
    ensures TableInv(s')
  {
    hide OperationInv;
    assert forall o :: Last(s', o) == Last(s, o);
    assert forall o :: Wins(s', o) == Wins(s, o) && Losses(s', o) == Losses(s, o);
  }

  // ---------------------------------------------------- what every event keeps

  lemma ContinuedKeeps(s: System, task: Task)
    requires TableInv(s) && TaskInv(s) && Enabled(s, Continue(task))
    ensures TableInv(Continued(s, task))
  {
    hide TableInv, Step;
    var op, env := task.op, task.env;
    var rest := s.(tasks := s.tasks - multiset{task});
    var s' := Continued(s, task);
    TasksKeep(s, rest);
    match task
    case ToCreate(_, _) =>
      CalledKeeps(rest, Create(op, env));
      TasksKeep(Called(rest, Create(op, env)), s');
    case ToDispatch(_, _) =>
      DispatchCalledKeeps(rest, op, env);
      TasksKeep(DispatchCalled(rest, op, env), s');
    case ToRun(_, _) =>
      CalledKeeps(rest, Run(op, env));
    case ToConfirm(_, _) =>
      ConfirmCalledKeeps(rest, op, env);
      TasksKeep(ConfirmCalled(rest, op, env), s');
  }

  lemma RecoveringKeeps(s: System, e: Event)
    requires TableInv(s) && Enabled(s, e) && IsLoss(e)
    ensures TableInv(Recovering(s, e))
  {
    hide TableInv, FreshAttempt, Step, LossRecord, Store.Append;
    match e
    case WorkerLost(_, _) => TasksKeep(s, Recovering(s, e));
    case ReportLoss(env, op, _) =>
      CalledKeeps(s, ReportFailure(op, env, true));
      TasksKeep(Called(s, ReportFailure(op, env, true)), Recovering(s, e));
    case Redispatch(env, op, attempt) =>
      var next, tasks := env.NewAttempt(attempt), s.tasks - multiset{ToRedispatch(env)};
      IssueKeeps(s, next);
      TasksKeep(s.(issued := s.issued + {next}), s.(issued := s.issued + {next}, tasks := tasks));
      DispatchCalledKeeps(s.(issued := s.issued + {next}, tasks := tasks), op, next);
    case NoReplacement(_) => TasksKeep(s, Recovering(s, e));
  }

  lemma ReceivedKeeps(s: System, e: Event)
    requires TableInv(s) && Enabled(s, e) && IsMessage(e)
    ensures TableInv(Received(s, e))
  {
    hide TableInv, Step, FreshAttempt;
    var s' := Received(s, e);
    match e
    case ClientDispatch(_, boot, attempt) =>
      var env := FirstEnvelope(boot, attempt);
      IssueKeeps(s, env);
      TasksKeep(s.(issued := s.issued + {env}), s');
    case Running(op, env) => CalledKeeps(s, Run(op, env));
    case Complete(op, env) =>
      CalledKeeps(s, ReportCompletion(op, env, false));
      TasksKeep(Called(s, ReportCompletion(op, env, false)), s');
    case Failure(op, env, ambiguous) => CalledKeeps(s, ReportFailure(op, env, ambiguous));
  }

  /** A crash forgets outcomes, and counts exactly those it forgets. */
  lemma CrashKeeps(s: System)
    requires TableInv(s) && KeptInv(s)
    ensures TableInv(Restarted(s)) && KeptInv(Restarted(s))
  {
    hide OperationInv;
    var s' := Restarted(s);
    forall op
      ensures Losses(s', op)
              == Losses(s, op) + if IsRecorded(s.table, op) && !IsRecorded(s.kept.table, op) then 1 else 0
    {
    }
    assert forall op :: Wins(s', op) == Wins(s, op);
    assert forall op :: Last(s', op) == Lookup(s.kept.latest, op);
  }

  lemma TableKept(s: System, e: Event)
    requires Inv(s) && Enabled(s, e)
    ensures TableInv(After(s, e))
  {
    hide TableInv, KeptInv, LogInv, TaskInv, Continued, Received, Recovering, Restarted, FreshAttempt, LossRecord;
    if IsMessage(e) {
      ReceivedKeeps(s, e);
    } else if IsLoss(e) {
      RecoveringKeeps(s, e);
    } else if e.Continue? {
      ContinuedKeeps(s, e.task);
    } else if e.Crash? {
      CrashKeeps(s);
    } else {
      TasksKeep(s, After(s, e));
    }
  }

  lemma StepKeepsOutcomes(t: Table, c: Call)
    ensures Preserved(t, Step(t, c).0)
  {
    forall op | IsRecorded(t, op) ensures op in Step(t, c).0 && Step(t, c).0[op] == t[op] {
      RegistryRuns.StepFreezes(t, c, op);
    }
  }

  /** The outcomes on record stay, and no envelope is forgotten. */
  ghost predicate OutcomesStay(s: System, t: System) {
    Preserved(s.table, t.table) && s.issued <= t.issued
  }

  lemma PreservedSelf(t: Table)
    ensures Preserved(t, t)
  {
  }

  lemma PreservedThrough(a: Table, b: Table, c: Table)
    requires Preserved(a, b) && Preserved(b, c)
    ensures Preserved(a, c)
  {
  }

  lemma ReceivedKeepsOutcomes(s: System, e: Event)
    requires IsMessage(e)
    ensures OutcomesStay(s, Received(s, e))
  {
    hide Step, Preserved;
    PreservedSelf(s.table);
    match e
    case ClientDispatch(_, _, _) =>
    case Running(op, env) => StepKeepsOutcomes(s.table, Run(op, env));
    case Complete(op, env) => StepKeepsOutcomes(s.table, ReportCompletion(op, env, false));
    case Failure(op, env, ambiguous) => StepKeepsOutcomes(s.table, ReportFailure(op, env, ambiguous));
  }

  lemma RecoveringKeepsOutcomes(s: System, e: Event)
    requires IsLoss(e)
    ensures OutcomesStay(s, Recovering(s, e))
  {
    hide Step, Preserved, Store.Append;
    PreservedSelf(s.table);
    match e
    case WorkerLost(_, _) =>
    case ReportLoss(env, op, _) => StepKeepsOutcomes(s.table, ReportFailure(op, env, true));
    case Redispatch(env, op, attempt) => StepKeepsOutcomes(s.table, Dispatch(op, env.NewAttempt(attempt)));
    case NoReplacement(_) =>
  }

  lemma ContinuedKeepsOutcomes(s: System, task: Task)
    requires Enabled(s, Continue(task))
    ensures OutcomesStay(s, Continued(s, task))
  {
    hide Step, Preserved, Wins;
    var op, env := task.op, task.env;
    match task
    case ToCreate(_, _) => StepKeepsOutcomes(s.table, Create(op, env));
    case ToDispatch(_, _) => StepKeepsOutcomes(s.table, Dispatch(op, env));
    case ToRun(_, _) => StepKeepsOutcomes(s.table, Run(op, env));
    case ToConfirm(_, _) => StepKeepsOutcomes(s.table, ConfirmCompletion(op, env));
  }

  /** Every event but a crash keeps the outcomes on record. */
  lemma OutcomesKept(s: System, e: Event)
    requires Enabled(s, e) && !e.Crash?
    ensures OutcomesStay(s, After(s, e))
  {
    hide Continued, Received, Recovering, Preserved, FreshAttempt, LossRecord;
    PreservedSelf(s.table);
    if IsMessage(e) {
      ReceivedKeepsOutcomes(s, e);
    } else if IsLoss(e) {
      RecoveringKeepsOutcomes(s, e);
    } else if e.Continue? {
      ContinuedKeepsOutcomes(s, e.task);
    }
  }

  lemma MoreIssued(r: Runtime, issued: set<Envelope>, more: set<Envelope>, last: Option<Envelope>)
    requires OperationInv(r, issued, last) && issued <= more
    ensures OperationInv(r, more, last)
  {
  }

  lemma KeptStays(s: System, s': System)
    requires KeptInv(s) && s'.kept == s.kept && OutcomesStay(s, s')
    ensures KeptInv(s')
  {
    hide OperationInv, Preserved;
    PreservedThrough(s.kept.table, s.table, s'.table);
    forall op | op in s.kept.table
      ensures OperationInv(s.kept.table[op], s'.issued, Lookup(s.kept.latest, op))
    {
      MoreIssued(s.kept.table[op], s.issued, s'.issued, Lookup(s.kept.latest, op));
    }
  }

  lemma SaveKeeps(s: System, task: Task, whole: bool)
    requires TableInv(s) && Enabled(s, Save(task, whole))
    ensures KeptInv(After(s, Save(task, whole)))
  {
    hide OperationInv;
    assert forall op :: Lookup(s.latest, op) == Last(s, op);
  }

  lemma LossIsLogged(log: Snapshot.FailureLog, record: FailureRecord, env: Envelope)
    requires LogInv(log)
    requires record == LossRecord(record.ids.operation, env, record.ids.failureId, record.effects.timestamp)
    ensures LogInv(Store.Append(log, record).0)
  {
    hide LossRecord, ValidAuthority;
  }

  /** Nothing changed but the table, the counts of wins and dispatches, the envelopes
      and the tasks. */
  predicate SameRest(s: System, t: System) {
    t.log == s.log && t.kept == s.kept && t.losses == s.losses
  }

  lemma ContinuedFrame(s: System, task: Task)
    requires Enabled(s, Continue(task))
    ensures SameRest(s, Continued(s, task)) && Continued(s, task).own == s.own
  {
    hide Step, Wins;
  }

  lemma ReceivedFrame(s: System, e: Event)
    requires IsMessage(e)
    ensures SameRest(s, Received(s, e)) && Received(s, e).own == s.own
  {
    hide Step;
  }

  lemma RecoveringFrame(s: System, e: Event)
    requires IsLoss(e)
    ensures SameRest(s.(log := if e.ReportLoss? then Store.Append(s.log, e.record).0 else s.log), Recovering(s, e))
  {
    hide Step, Store.Append;
  }

  /** What the events do to the log, to what was saved and to the count of what was lost. */
  lemma Frame(s: System, e: Event)
    requires Enabled(s, e) && !e.Crash?
    ensures After(s, e).losses == s.losses
    ensures After(s, e).log == if e.ReportLoss? then Store.Append(s.log, e.record).0 else s.log
    ensures After(s, e).kept
            == if e.Save? then (if e.whole then Checkpoint(s.table, s.latest, s.log) else NOTHING) else s.kept
  {
    hide Enabled, Continued, Received, Recovering, Restarted, Store.Append;
    if IsMessage(e) {
      ReceivedFrame(s, e);
    } else if IsLoss(e) {
      RecoveringFrame(s, e);
    } else if e.Continue? {
      ContinuedFrame(s, e.task);
    }
  }

  lemma LogKept(s: System, e: Event)
    requires Inv(s) && Enabled(s, e)
    ensures LogInv(After(s, e).log) && LogInv(After(s, e).kept.log)
  {
    hide TableInv, KeptInv, TaskInv, LogInv, FreshAttempt, After, LossRecord, Store.Append;
    EmptyLog();
    if e.Crash? {
      CrashRestarts(s);
    } else {
      Frame(s, e);
      if e.ReportLoss? {
        LossIsLogged(s.log, e.record, e.env);
      }
    }
  }

  lemma EmptyLog()
    ensures LogInv(map[])
  {
  }

  lemma ContinuedTasks(s: System, task: Task)
    requires TaskInv(s) && Enabled(s, Continue(task))
    ensures TaskInv(Continued(s, task))
  {
    hide Step, Wins;
  }

  lemma ReceivedTasks(s: System, e: Event)
    requires TaskInv(s) && Enabled(s, e) && IsMessage(e)
    ensures TaskInv(Received(s, e))
  {
    hide Step, FreshAttempt;
  }

  lemma RecoveringTasks(s: System, e: Event)
    requires TaskInv(s) && IsLoss(e)
    ensures TaskInv(Recovering(s, e))
  {
    hide Step, Store.Append;
  }

  lemma TasksKept(s: System, e: Event)
    requires Inv(s) && Enabled(s, e)
    ensures TaskInv(After(s, e))
  {
    hide TableInv, KeptInv, LogInv, Received, Recovering, Continued, FreshAttempt, LossRecord;
    if IsMessage(e) {
      ReceivedTasks(s, e);
    } else if IsLoss(e) {
      RecoveringTasks(s, e);
    } else if e.Continue? {
      ContinuedTasks(s, e.task);
    }
  }

  /** Every step of every handler, every save and every crash keeps the invariant. */
  lemma EventKeeps(s: System, e: Event)
    requires Inv(s) && Enabled(s, e)
    ensures Inv(After(s, e))
  {
    hide TableInv, KeptInv, LogInv, TaskInv, After, Enabled, OutcomesStay;
    TableKept(s, e);
    TasksKept(s, e);
    LogKept(s, e);
    if e.Crash? {
      CrashKeeps(s);
      CrashRestarts(s);
    } else if e.Save? {
      SaveKeeps(s, e.task, e.whole);
    } else {
      OutcomesKept(s, e);
      Frame(s, e);
      KeptStays(s, After(s, e));
    }
  }

  lemma CrashRestarts(s: System)
    ensures Enabled(s, Crash) && After(s, Crash) == Restarted(s)
  {
  }

  lemma {:induction false} RunKeeps(s: System, es: seq<Event>)
    requires Inv(s) && IsRun(s, es)
    ensures Inv(Final(s, es))
    decreases es
  {
    hide Inv, Enabled, After;
    if es != [] {
      EventKeeps(s, es[0]);
      RunKeeps(After(s, es[0]), es[1..]);
    }
  }

  // ------------------------------------------------------------- the guarantees

  /** In every run the confirmations of an operation that succeed are the outcome on
      record, if there is one, and those that a crash has forgotten. The recorded
      envelope is that of the latest dispatch that was not forgotten. */
  lemma WinsAcrossRestarts(es: seq<Event>, op: Uuid)
    requires IsRun(START, es)
    ensures var s := Final(START, es);
            && Wins(s, op) == Losses(s, op) + (if IsRecorded(s.table, op) then 1 else 0)
            && (IsRecorded(s.table, op) ==>
                  && s.table[op].state == COMPLETION_CONFIRMED
                  && op in s.latest && s.table[op].terminal == s.latest[op])
  {
    hide IsRun, Final, After, Enabled;
    StartInv();
    RunKeeps(START, es);
    WinsAreCounted(Final(START, es), op);
  }

  lemma WinsAreCounted(s: System, op: Uuid)
    requires TableInv(s)
    ensures Wins(s, op) == Losses(s, op) + if IsRecorded(s.table, op) then 1 else 0
    ensures IsRecorded(s.table, op) ==>
              && s.table[op].state == COMPLETION_CONFIRMED
              && op in s.latest && s.table[op].terminal == s.latest[op]
  {
    hide Wins, Losses;
    assert op in s.table ==> OperationInv(s.table[op], s.issued, Last(s, op));
  }

  lemma StartInv()
    ensures Inv(START)
  {
    EmptyLog();
    hide LogInv;
  }

  /** The crashes that forget a recorded outcome of op. */
  ghost function Forgotten(s: System, es: seq<Event>, op: Uuid): nat
    requires IsRun(s, es)
    decreases es
  {
    if es == [] then 0
    else
      (if es[0].Crash? && IsRecorded(s.table, op) && !IsRecorded(s.kept.table, op) then 1 else 0)
      + Forgotten(After(s, es[0]), es[1..], op)
  }

  lemma LossStepCounts(s: System, e: Event, op: Uuid)
    requires Enabled(s, e)
    ensures Losses(After(s, e), op)
            == Losses(s, op) + if e.Crash? && IsRecorded(s.table, op) && !IsRecorded(s.kept.table, op) then 1 else 0
  {
    hide After, Enabled;
    if e.Crash? {
      CrashRestarts(s);
    } else {
      Frame(s, e);
    }
  }

  lemma {:induction false} LossesCounted(s: System, es: seq<Event>, op: Uuid)
    requires IsRun(s, es)
    ensures Losses(Final(s, es), op) == Losses(s, op) + Forgotten(s, es, op)
    decreases es
  {
    hide Enabled, After, Losses, IsRecorded;
    if es != [] {
      LossStepCounts(s, es[0], op);
      LossesCounted(After(s, es[0]), es[1..], op);
    }
  }

  /** One winner over restarts: of each operation at most one confirmation succeeds,
      and one more for each crash that forgets a recorded one. */
  lemma OneWinnerPerForgottenOutcome(es: seq<Event>, op: Uuid)
    requires IsRun(START, es)
    ensures Wins(Final(START, es), op) <= 1 + Forgotten(START, es, op)
  {
    hide IsRun, Final, Forgotten;
    WinsAcrossRestarts(es, op);
    LossesCounted(START, es, op);
  }

  lemma {:induction false} NothingForgotten(s: System, es: seq<Event>, op: Uuid)
    requires IsRun(s, es) && Crash !in es
    ensures Forgotten(s, es, op) == 0
    decreases es
  {
    hide Enabled, After;
    if es != [] {
      NothingForgotten(After(s, es[0]), es[1..], op);
    }
  }

  /** While the process lives, at most one confirmation of an operation succeeds, it
      does so exactly when the operation is recorded, and the recorded envelope is that
      of the operation's latest successful dispatch. */
  lemma OneWinnerTheLatestDispatch(es: seq<Event>, op: Uuid)
    requires IsRun(START, es) && Crash !in es
    ensures var s := Final(START, es);
            && Wins(s, op) <= 1
            && (Wins(s, op) == 1 <==> op in s.table && s.table[op].recorded)
            && (op in s.table && s.table[op].recorded ==>
                  && s.table[op].state == COMPLETION_CONFIRMED
                  && op in s.latest && s.table[op].terminal == s.latest[op])
  {
    hide IsRun, Final, Forgotten;
    WinsAcrossRestarts(es, op);
    LossesCounted(START, es, op);
    NothingForgotten(START, es, op);
  }

  lemma LateCallRejected(r: Runtime, c: Call)
    requires c.Run? || c.ReportCompletion? || c.ConfirmCompletion? || c.ReportFailure?
    requires r.authority.attempt != NULL_ID && c.env.attempt != r.authority.attempt
    ensures Apply(r, c).1 != OK && Apply(r, c).0 == r
  {
    FenceNamesAttempt(c.env, r.authority, r.terminal);
  }

  lemma AuthorityIsLatest(s: System, op: Uuid)
    requires TableInv(s) && op in s.latest
    ensures op in s.table && s.table[op].authority == s.latest[op] && s.latest[op] in s.issued
  {
    assert OperationInv(s.table[op], s.issued, Last(s, op));
  }

  /** No late message counts: after any run, a message carrying an envelope other
      than that of the latest dispatch is turned down and leaves the table alone. */
  lemma LateMessageLoses(es: seq<Event>, c: Call)
    requires IsRun(START, es)
    requires c.Run? || c.ReportCompletion? || c.ConfirmCompletion? || c.ReportFailure?
    requires c.op in Final(START, es).latest && c.env in Final(START, es).issued
    requires c.env != Final(START, es).latest[c.op]
    ensures Step(Final(START, es).table, c).1 != OK
    ensures Step(Final(START, es).table, c).0 == Final(START, es).table
  {
    hide OperationInv, Apply, IsRun, Final, KeptInv, LogInv;
    StartInv();
    RunKeeps(START, es);
    var s := Final(START, es);
    AuthorityIsLatest(s, c.op);
    LateCallRejected(s.table[c.op], c);
    assert s.table[c.op := s.table[c.op]] == s.table;
  }

  /** The loss path moves recovery ownership forward only, while the process lives. */
  lemma {:induction false} OwnershipAdvances(s: System, es: seq<Event>)
    requires IsRun(s, es) && Crash !in es && (s.own.owner == Ownership.NONE ==> s.own.generation == 0)
    ensures var t := Final(s, es);
            && s.own.generation <= t.own.generation
            && (s.own.owner != Ownership.NONE ==> t.own.owner != Ownership.NONE)
            && (s.own != t.own ==> t.own.owner == REPLACEMENT_WORKER && s.own.generation < t.own.generation)
    decreases es
  {
    hide Enabled, After;
    if es != [] {
      OwnershipStep(s, es[0]);
      OwnershipAdvances(After(s, es[0]), es[1..]);
    }
  }

  lemma RecoveringOwns(s: System, e: Event)
    requires IsLoss(e)
    ensures Recovering(s, e).own == s.own
            || (Recovering(s, e).own.owner == REPLACEMENT_WORKER && Recovering(s, e).own.generation != 0
                && (s.own.owner != Ownership.NONE ==> s.own.generation < Recovering(s, e).own.generation))
  {
    hide Step, Store.Append, CurrentAuthority;
  }

  lemma OwnershipStep(s: System, e: Event)
    requires Enabled(s, e) && !e.Crash? && (s.own.owner == Ownership.NONE ==> s.own.generation == 0)
    ensures var t := After(s, e);
            && (t.own == s.own
                || (s.own.generation < t.own.generation && t.own.owner == REPLACEMENT_WORKER))
            && (t.own.owner == Ownership.NONE ==> t.own.generation == 0)
  {
    hide Enabled, Continued, Received, Recovering, Restarted;
    if e.Continue? {
      ContinuedFrame(s, e.task);
    } else if IsMessage(e) {
      ReceivedFrame(s, e);
    } else if IsLoss(e) {
      RecoveringOwns(s, e);
    }
  }
}

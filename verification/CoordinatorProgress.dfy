/** The coordinator protocol can get through: new operations and lost ones can be won,
    and what a restart can cost. */
module CoordinatorProgress {
  import opened Bytes
  import opened Ids
  import opened Authority
  import opened Operation
  import opened Registry
  import opened FailureRecords
  import opened Coordinator
  import Ownership
  import RegistryRuns
  import Store
  import StoreLaws

  lemma RunCons(s: System, e: Event, es: seq<Event>)
    requires Enabled(s, e) && IsRun(After(s, e), es)
    ensures IsRun(s, [e] + es) && Final(s, [e] + es) == Final(After(s, e), es)
  {
    hide Enabled, After;
    assert ([e] + es)[1..] == es;
  }

  /** The operation ends confirmed under the envelope, by one confirmation more than before. */
  predicate WonBy(t: System, s: System, op: Uuid, env: Envelope) {
    && op in t.table && t.table[op].recorded && t.table[op].terminal == env
    && t.table[op].state == COMPLETION_CONFIRMED
    && Wins(t, op) == Wins(s, op) + 1
    && t.kept == s.kept
  }

  predicate MayRun(s: System, e: Event, op: Uuid, env: Envelope) {
    e == Running(op, env) || (e == Continue(ToRun(op, env)) && ToRun(op, env) in s.tasks)
  }

  lemma RunStep(s: System, op: Uuid, env: Envelope, start: Event)
    requires env in s.issued && MayRun(s, start, op, env)
    ensures Enabled(s, start)
    ensures var t := After(s, start);
            && t.table == Step(s.table, Run(op, env)).0 && t.issued == s.issued && t.wins == s.wins
            && t.kept == s.kept
  {
    hide Step, After, FreshAttempt;
    if start == Running(op, env) {
      RunningStep(s, op, env);
    } else {
      ToRunStep(s, op, env);
    }
  }

  lemma RunningStep(s: System, op: Uuid, env: Envelope)
    requires env in s.issued
    ensures After(s, Running(op, env)) == s.(table := Step(s.table, Run(op, env)).0)
  {
    hide Step, Continued, Recovering, Restarted, FirstEnvelope;
  }

  lemma ToRunStep(s: System, op: Uuid, env: Envelope)
    requires ToRun(op, env) in s.tasks
    ensures After(s, Continue(ToRun(op, env)))
            == s.(table := Step(s.table, Run(op, env)).0, tasks := s.tasks - multiset{ToRun(op, env)})
  {
    hide Step, DispatchCalled, ConfirmCalled, Received, Recovering, Restarted;
  }

  lemma CompleteStep(s: System, op: Uuid, env: Envelope)
    requires env in s.issued && Step(s.table, ReportCompletion(op, env, false)).1 == OK
    ensures Enabled(s, Complete(op, env))
    ensures var t := After(s, Complete(op, env));
            && t.table == Step(s.table, ReportCompletion(op, env, false)).0 && t.wins == s.wins
            && t.issued == s.issued && t.kept == s.kept && ToConfirm(op, env) in t.tasks
  {
    hide Step, Continued, Recovering, Restarted, FreshAttempt;
  }

  lemma ConfirmStep(s: System, op: Uuid, env: Envelope)
    requires ToConfirm(op, env) in s.tasks && Step(s.table, ConfirmCompletion(op, env)).1 == OK
    ensures var e := Continue(ToConfirm(op, env));
            && Enabled(s, e)
            && After(s, e).table == Step(s.table, ConfirmCompletion(op, env)).0
            && Wins(After(s, e), op) == Wins(s, op) + 1
            && After(s, e).issued == s.issued && After(s, e).kept == s.kept
  {
    hide Step, Received, Recovering, Restarted, FreshAttempt;
  }

  function Finish(op: Uuid, env: Envelope, start: Event): seq<Event> {
    [start] + ([Complete(op, env)] + [Continue(ToConfirm(op, env))])
  }

  /** Once dispatched, an operation is won by its worker's messages. */
  lemma DispatchedIsWon(s: System, op: Uuid, env: Envelope, r: Runtime, start: Event)
    requires RegistryRuns.Sound(r) && !IsTerminal(r.state) && !env.IsUnset()
    requires op in s.table && s.table[op] == Apply(r, Dispatch(op, env)).0
    requires env in s.issued && MayRun(s, start, op, env)
    ensures IsRun(s, Finish(op, env, start)) && WonBy(Final(s, Finish(op, env, start)), s, op, env)
    ensures Final(s, Finish(op, env, start)).issued == s.issued
  {
    hide Apply, IsRun, Final, Enabled, After, MayRun, IsTerminal;
    RegistryRuns.CompletionSteps(r, op, env);
    var last := Continue(ToConfirm(op, env));
    RunStep(s, op, env, start);
    var s1 := After(s, start);
    CompleteStep(s1, op, env);
    var s2 := After(s1, Complete(op, env));
    ConfirmStep(s2, op, env);
    RunNothing(After(s2, last));
    RunCons(s2, last, []);
    assert [last] + [] == [last];
    RunCons(s1, Complete(op, env), [last]);
    RunCons(s, start, [Complete(op, env)] + [last]);
  }

  lemma RunNothing(s: System)
    ensures IsRun(s, []) && Final(s, []) == s
  {
  }

  /** The dispatch handler's calls in their order, then the worker's completion. */
  function FirstRun(op: Uuid, boot: Uuid, attempt: Uuid): seq<Event> {
    var env := FirstEnvelope(boot, attempt);
    [ClientDispatch(op, boot, attempt)]
    + ([Continue(ToCreate(op, env))]
    + ([Continue(ToDispatch(op, env))]
    + Finish(op, env, Continue(ToRun(op, env)))))
  }

  /** A client's dispatch of a new operation can always be carried through to its
      confirmation, in the order in which the handler makes its calls. */
  lemma NewOperationCanBeWon(s: System, op: Uuid, boot: Uuid, attempt: Uuid)
    requires FreshAttempt(s, attempt) && op !in s.table
    ensures var env, plan := FirstEnvelope(boot, attempt), FirstRun(op, boot, attempt);
            && IsRun(s, plan) && WonBy(Final(s, plan), s, op, env)
            && Final(s, plan).issued == s.issued + {env}
            && (env.epoch, env.boot, env.attempt, env.dispatch) == (1, boot, attempt, NULL_ID)
            && (env.attemptGen, env.operationGen, env.failureGen, env.recoveryGen) == (1, 1, 0, 0)
  {
    hide IsRun, Final, Finish, After, Enabled;
    var env := FirstEnvelope(boot, attempt);
    var e0 := ClientDispatch(op, boot, attempt);
    var e1, e2 := Continue(ToCreate(op, env)), Continue(ToDispatch(op, env));
    var rest := Finish(op, env, Continue(ToRun(op, env)));
    ClientStep(s, op, boot, attempt);
    var s1 := After(s, e0);
    CreateStep(s1, op, env);
    var s2 := After(s1, e1);
    DispatchStep(s2, op, env);
    var s3 := After(s2, e2);
    DispatchedIsWon(s3, op, env, Created(env), Continue(ToRun(op, env)));
    RunCons(s2, e2, rest);
    RunCons(s1, e1, [e2] + rest);
    RunCons(s, e0, [e1] + ([e2] + rest));
  }

  lemma ClientStep(s: System, op: Uuid, boot: Uuid, attempt: Uuid)
    requires FreshAttempt(s, attempt)
    ensures var e, env := ClientDispatch(op, boot, attempt), FirstEnvelope(boot, attempt);
            && Enabled(s, e)
            && After(s, e).table == s.table && After(s, e).wins == s.wins && After(s, e).kept == s.kept
            && After(s, e).issued == s.issued + {env} && ToCreate(op, env) in After(s, e).tasks
  {
    hide FreshAttempt, Continued, Recovering, Restarted;
  }

  lemma CreateStep(s: System, op: Uuid, env: Envelope)
    requires ToCreate(op, env) in s.tasks
    ensures var e := Continue(ToCreate(op, env));
            && Enabled(s, e)
            && After(s, e).table == Step(s.table, Create(op, env)).0 && After(s, e).wins == s.wins
            && After(s, e).issued == s.issued && ToDispatch(op, env) in After(s, e).tasks
            && After(s, e).kept == s.kept
  {
    hide Step, FreshAttempt, DispatchCalled, ConfirmCalled, Received, Recovering, Restarted;
  }

  lemma DispatchStep(s: System, op: Uuid, env: Envelope)
    requires ToDispatch(op, env) in s.tasks
    ensures var e := Continue(ToDispatch(op, env));
            && Enabled(s, e)
            && After(s, e).table == Step(s.table, Dispatch(op, env)).0 && After(s, e).wins == s.wins
            && After(s, e).issued == s.issued && ToRun(op, env) in After(s, e).tasks
            && After(s, e).kept == s.kept
  {
    hide Step, FreshAttempt, Called, ConfirmCalled, Received, Recovering, Restarted;
  }

  /** How a worker's loss goes: the boot drawn for the next owner of recovery, the
      identity and time of the failure record, the fresh attempt. */
  datatype Loss = Loss(boot: Uuid, id: Uuid, timestamp: u64, attempt: Uuid)

  function LossReport(s: System, op: Uuid, loss: Loss): Event {
    var lost := CurrentAuthority(s.table, op);
    ReportLoss(lost, op, LossRecord(op, lost, loss.id, loss.timestamp))
  }

  /** The loss path of an operation: its worker is gone, recovery gets a new owner, the
      failure is logged and reported under the authority the operation had. */
  function LossReported(s: System, op: Uuid, loss: Loss): System {
    After(After(s, WorkerLost(op, loss.boot)), LossReport(s, op, loss))
  }

  /** And the operation goes out again under the fresh attempt, to be won. */
  function Recovery(s: System, op: Uuid, loss: Loss): seq<Event> {
    var lost := CurrentAuthority(s.table, op);
    var next := lost.NewAttempt(loss.attempt);
    [WorkerLost(op, loss.boot)]
    + ([LossReport(s, op, loss)]
    + ([Redispatch(lost, op, loss.attempt)]
    + Finish(op, next, Running(op, next))))
  }

  lemma LostStep(s: System, op: Uuid, loss: Loss)
    ensures var e := WorkerLost(op, loss.boot);
            var t := After(s, e);
            && Enabled(s, e)
            && t.table == s.table && t.issued == s.issued && t.wins == s.wins && t.kept == s.kept && t.log == s.log
            && ToReportLoss(CurrentAuthority(s.table, op)) in t.tasks
  {
    hide Step, Ownership.Step, Continued, Received, Restarted, CurrentAuthority;
  }

  lemma ReportStep(s: System, op: Uuid, env: Envelope, record: FailureRecord)
    requires Enabled(s, ReportLoss(env, op, record))
    ensures var t := After(s, ReportLoss(env, op, record));
            && t.table == Step(s.table, ReportFailure(op, env, true)).0
            && t.issued == s.issued && t.wins == s.wins && t.kept == s.kept
            && t.log == Store.Append(s.log, record).0
            && ToRedispatch(env) in t.tasks
  {
    hide Step, Continued, Received, Restarted, LossRecord, Store.Append;
  }

  lemma LossStep(s: System, op: Uuid, loss: Loss)
    requires op in s.table
    ensures var lost := s.table[op].authority;
            var t := LossReported(s, op, loss);
            && t.table == Step(s.table, ReportFailure(op, lost, true)).0
            && t.issued == s.issued && t.wins == s.wins && t.kept == s.kept
            && t.log == Store.Append(s.log, LossRecord(op, lost, loss.id, loss.timestamp)).0
            && ToRedispatch(lost) in t.tasks
    ensures Enabled(s, WorkerLost(op, loss.boot))
    ensures Enabled(After(s, WorkerLost(op, loss.boot)), LossReport(s, op, loss))
  {
    hide Step, After, Store.Append;
    LostStep(s, op, loss);
    var lost := s.table[op].authority;
    ReportStep(After(s, WorkerLost(op, loss.boot)), op, lost, LossRecord(op, lost, loss.id, loss.timestamp));
  }

  lemma RedispatchStep(s: System, op: Uuid, lost: Envelope, attempt: Uuid)
    requires ToRedispatch(lost) in s.tasks && FreshAttempt(s, attempt)
    ensures var e := Redispatch(lost, op, attempt);
            var next := lost.NewAttempt(attempt);
            && Enabled(s, e)
            && After(s, e).table == Step(s.table, Dispatch(op, next)).0
            && next in After(s, e).issued && After(s, e).wins == s.wins && After(s, e).kept == s.kept
  {
    hide Step, FreshAttempt, Called, Continued, Received, Restarted;
  }

  lemma LossIsReported(r: Runtime, op: Uuid)
    requires RegistryRuns.Sound(r) && !IsTerminal(r.state) && !r.recorded && !r.authority.IsUnset()
    ensures var r' := Apply(r, ReportFailure(op, r.authority, true)).0;
            && RegistryRuns.Sound(r') && !IsTerminal(r'.state) && !r'.recorded
            && (r.state <= COMPLETION_REPORTED ==> r'.state == FAILED_AMBIGUOUS)
  {
    CurrentIsAccepted(r.authority);
  }

  lemma LossIsRecovered(s: System, op: Uuid, loss: Loss)
    requires op in s.table && FreshAttempt(s, loss.attempt)
    requires var r := s.table[op];
             RegistryRuns.Sound(r) && !IsTerminal(r.state) && !r.recorded && !r.authority.IsUnset()
    ensures op in LossReported(s, op, loss).table
    ensures s.table[op].state <= COMPLETION_REPORTED ==> LossReported(s, op, loss).table[op].state == FAILED_AMBIGUOUS
    ensures IsRun(s, Recovery(s, op, loss))
    ensures WonBy(Final(s, Recovery(s, op, loss)), s, op, s.table[op].authority.NewAttempt(loss.attempt))
  {
    hide IsRun, Final, Apply, Finish, RegistryRuns.Sound, IsTerminal, After, Enabled, LossReport, LossReported, LossRecord;
    hide FreshAttempt;
    var lost := s.table[op].authority;
    var next := lost.NewAttempt(loss.attempt);
    var e0, e1, e2 := WorkerLost(op, loss.boot), LossReport(s, op, loss), Redispatch(lost, op, loss.attempt);
    var rest := Finish(op, next, Running(op, next));
    LossStep(s, op, loss);
    LossIsReported(s.table[op], op);
    var s1, s2 := After(s, e0), LossReported(s, op, loss);
    LossReportedTwoSteps(s, op, loss);
    SameFresh(s, s2, loss.attempt);
    RedispatchStep(s2, op, lost, loss.attempt);
    DispatchedIsWon(After(s2, e2), op, next, s2.table[op], Running(op, next));
    RunCons(s2, e2, rest);
    RunCons(s1, e1, [e2] + rest);
    RunCons(s, e0, [e1] + ([e2] + rest));
  }

  lemma LossReportedTwoSteps(s: System, op: Uuid, loss: Loss)
    ensures LossReported(s, op, loss) == After(After(s, WorkerLost(op, loss.boot)), LossReport(s, op, loss))
  {
  }

  lemma SameFresh(s: System, t: System, attempt: Uuid)
    requires FreshAttempt(s, attempt) && t.issued == s.issued
    ensures FreshAttempt(t, attempt)
  {
  }

  lemma ReachableOperation(s: System, op: Uuid)
    requires Inv(s) && op in s.table && !s.table[op].recorded
    ensures var r := s.table[op];
            RegistryRuns.Sound(r) && !IsTerminal(r.state) && !r.authority.IsUnset()
  {
    assert OperationInv(s.table[op], s.issued, Last(s, op));
  }

  /** Recovery: in every reachable state, restarts included, every operation that is
      not yet won can lose its worker. The loss is logged, whatever was under way is
      classified as ambiguous, and the operation goes out again under a fresh attempt,
      under which the replacement can win it. */
  lemma LostOperationCanBeWon(es: seq<Event>, op: Uuid, loss: Loss)
    requires IsRun(START, es)
    requires var s := Final(START, es); op in s.table && !s.table[op].recorded && FreshAttempt(s, loss.attempt)
    ensures var s := Final(START, es);
            var lost, plan := s.table[op].authority, Recovery(s, op, loss);
            && op in LossReported(s, op, loss).table
            && (s.table[op].state <= COMPLETION_REPORTED ==>
                  LossReported(s, op, loss).table[op].state == FAILED_AMBIGUOUS)
            && LossReported(s, op, loss).log == Store.Append(s.log, LossRecord(op, lost, loss.id, loss.timestamp)).0
            && IsRun(s, plan) && WonBy(Final(s, plan), s, op, lost.NewAttempt(loss.attempt))
  {
    hide *;
    StartInv();
    RunKeeps(START, es);
    ReachableOperation(Final(START, es), op);
    LossStep(Final(START, es), op, loss);
    LossIsRecovered(Final(START, es), op, loss);
  }

  /** What a worker's loss leaves behind, in every reachable state: under a fresh id the
      log holds a record that names the operation, the lost attempt and its authority,
      and calls the outcome ambiguous; no other record has moved. Recovery goes to a
      replacement worker one generation on, unless somebody already holds that or more. */
  lemma LossLeavesRecord(es: seq<Event>, op: Uuid, loss: Loss)
    requires IsRun(START, es)
    requires var s := Final(START, es);
             && op in s.table && op != NULL_ID && loss.id != NULL_ID && loss.id !in s.log
             && !StoreLaws.Malformed(s.table[op].authority)
    ensures var s := Final(START, es);
            var t := LossReported(s, op, loss);
            var lost := s.table[op].authority;
            && loss.id in t.log
            && (forall k :: k != loss.id ==> (k in t.log <==> k in s.log) && (k in s.log ==> t.log[k] == s.log[k]))
            && var r := t.log[loss.id];
            && r.ids.failureId == loss.id && r.ids.operation == op && r.ids.attempt == lost.attempt
            && r.authority == lost && r.effects.timestamp == loss.timestamp
            && (r.cause.failureClass, r.cause.origin, r.cause.code, r.cause.phase) == (4, 1, 0, 6)
            && (r.effects.completion, r.effects.sideEffects, r.effects.unknownSideEffects) == (2, 2, 1)
            && (r.handling.retryability, r.handling.rollback, r.handling.compensation) == (2, 1, 1)
            && (r.handling.terminality, r.handling.recoveryOwner, r.handling.provenance) == (2, 8, 6)
            && r.cause.summary == [] && r.cause.reason == [] && r.dependencies == []
  {
    hide *;
    StartInv();
    RunKeeps(START, es);
    var s := Final(START, es);
    AttemptIsSet(s, op);
    LossStep(s, op, loss);
    LossRecordFields(op, s.table[op].authority, loss);
    StoreLaws.TakenExactly(s.log, LossRecord(op, s.table[op].authority, loss.id, loss.timestamp));
  }

  lemma AttemptIsSet(s: System, op: Uuid)
    requires Inv(s) && op in s.table
    ensures s.table[op].authority.attempt != NULL_ID
  {
    hide LogInv, KeptInv;
    assert OperationInv(s.table[op], s.issued, Last(s, op));
  }

  lemma LossRecordFields(op: Uuid, lost: Envelope, loss: Loss)
    ensures var r := LossRecord(op, lost, loss.id, loss.timestamp);
            && r.ids.failureId == loss.id && r.ids.operation == op && r.ids.attempt == lost.attempt
            && r.authority == lost && r.effects.timestamp == loss.timestamp
            && (r.cause.failureClass, r.cause.origin, r.cause.code, r.cause.phase) == (4, 1, 0, 6)
            && (r.effects.completion, r.effects.sideEffects, r.effects.unknownSideEffects) == (2, 2, 1)
            && (r.handling.retryability, r.handling.rollback, r.handling.compensation) == (2, 1, 1)
            && (r.handling.terminality, r.handling.recoveryOwner, r.handling.provenance) == (2, 8, 6)
            && r.cause.summary == [] && r.cause.reason == [] && r.dependencies == []
  {
  }

  /** Recovery goes to a replacement worker one generation on from the authority that was
      lost, unless somebody already holds that generation or a later one. */
  lemma LossMovesOwnership(s: System, op: Uuid, loss: Loss)
    requires op in s.table && s.table[op].authority.recoveryGen + 1 < MODULUS
    ensures var own := LossReported(s, op, loss).own;
            var next := s.table[op].authority.recoveryGen + 1;
            if s.own.owner == 8 || s.own.generation < next
            then own.owner == 2 && own.generation == next && own.boot == loss.boot
            else own == s.own
  {
    hide Step, Received, Continued, Restarted, LossRecord, Store.Append;
    LostStep(s, op, loss);
  }

  // ------------------------------------------------------- restarts can cost a win

  lemma {:induction false} RunAppend(s: System, a: seq<Event>, b: seq<Event>)
    requires IsRun(s, a) && IsRun(Final(s, a), b)
    ensures IsRun(s, a + b) && Final(s, a + b) == Final(Final(s, a), b)
    decreases a
  {
    hide Enabled, After;
    if a == [] {
      assert [] + b == b;
    } else {
      RunAppend(After(s, a[0]), a[1..], b);
      assert (a + b)[1..] == a[1..] + b;
    }
  }

  /** A confirmation that is acknowledged but not saved can be lost in a crash, and the
      operation then be confirmed a second time: the bound over restarts is met. */
  lemma ConfirmedTwice(op: Uuid, boot: Uuid, first: Uuid, second: Uuid)
    requires first != NULL_ID && second != NULL_ID && first != second
    ensures var es := FirstRun(op, boot, first) + ([Crash] + FirstRun(op, boot, second));
            IsRun(START, es) && Wins(Final(START, es), op) == 2
  {
    hide IsRun, Final, FirstRun, Wins, Enabled, After;
    assert Wins(START, op) == 0 by {
      NoWins(op);
    }
    var a, b := FirstRun(op, boot, first), FirstRun(op, boot, second);
    StartIsFresh(first);
    NewOperationCanBeWon(START, op, boot, first);
    var s1 := Final(START, a);
    CrashRestarts(s1);
    RestartedEmpty(s1, op);
    var s2 := Restarted(s1);
    FreshOther(s2, FirstEnvelope(boot, first), second);
    NewOperationCanBeWon(s2, op, boot, second);
    RunCons(s1, Crash, b);
    RunAppend(START, a, [Crash] + b);
  }

  lemma NoWins(op: Uuid)
    ensures Wins(START, op) == 0
  {
  }

  lemma StartIsFresh(attempt: Uuid)
    requires attempt != NULL_ID
    ensures FreshAttempt(START, attempt) && START.table == map[] && START.issued == {} && START.kept == NOTHING
  {
  }

  lemma RestartedEmpty(s: System, op: Uuid)
    requires s.kept == NOTHING
    ensures var t := Restarted(s); op !in t.table && t.issued == s.issued && Wins(t, op) == Wins(s, op)
  {
  }

  lemma FreshOther(s: System, env: Envelope, attempt: Uuid)
    requires s.issued == {} + {env} && attempt != NULL_ID && attempt != env.attempt
    ensures FreshAttempt(s, attempt)
  {
  }
}

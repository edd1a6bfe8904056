/** The protocol seen from the registry: which calls its events make. */
module CoordinatorCalls {
  import opened Bytes
  import opened Ids
  import opened Authority
  import opened Operation
  import opened Registry
  import opened FailureRecords
  import opened Coordinator
  import Ownership
  import RegistryRuns
  import RegistryLaws
  import Store

  /** The registry call of an event, if it makes one. */
  function CallOf(e: Event): Option<Call> {
    match e
    case Running(op, env) => Some(Run(op, env))
    case Complete(op, env) => Some(ReportCompletion(op, env, false))
    case Failure(op, env, ambiguous) => Some(ReportFailure(op, env, ambiguous))
    case ReportLoss(env, op, _) => Some(ReportFailure(op, env, true))
    case Redispatch(env, op, attempt) => Some(Dispatch(op, env.NewAttempt(attempt)))
    case Continue(ToCreate(op, env)) => Some(Create(op, env))
    case Continue(ToDispatch(op, env)) => Some(Dispatch(op, env))
    case Continue(ToRun(op, env)) => Some(Run(op, env))
    case Continue(ToConfirm(op, env)) => Some(ConfirmCompletion(op, env))
    case _ => None
  }

  function Calls(es: seq<Event>): (cs: seq<Call>)
    ensures forall i :: 0 <= i < |cs| ==> RegistryLaws.Protocol(cs[i])
    decreases es
  {
    if es == [] then []
    else (if CallOf(es[0]).Some? then [CallOf(es[0]).value] else []) + Calls(es[1..])
  }

  lemma ReceivedCalls(s: System, e: Event)
    requires IsMessage(e)
    ensures Received(s, e).table == if CallOf(e).Some? then Step(s.table, CallOf(e).value).0 else s.table
  {
    hide Step;
  }

  lemma RecoveringCalls(s: System, e: Event)
    requires IsLoss(e)
    ensures Recovering(s, e).table == if CallOf(e).Some? then Step(s.table, CallOf(e).value).0 else s.table
  {
    hide Step, Store.Append, Called, DispatchCalled, Ownership.Step, CurrentAuthority;
    if e.ReportLoss? {
      ReportLossCalls(s, e.env, e.op, e.record);
    } else if e.Redispatch? {
      RedispatchCalls(s, e.env, e.op, e.attempt);
    }
  }

  lemma ReportLossCalls(s: System, env: Envelope, op: Uuid, record: FailureRecord)
    ensures Recovering(s, ReportLoss(env, op, record)).table == Step(s.table, ReportFailure(op, env, true)).0
  {
    hide Step, Store.Append;
  }

  lemma RedispatchCalls(s: System, env: Envelope, op: Uuid, attempt: Uuid)
    ensures Recovering(s, Redispatch(env, op, attempt)).table == Step(s.table, Dispatch(op, env.NewAttempt(attempt))).0
  {
    hide Step, Store.Append;
  }

  lemma CalledTables(s: System, c: Call, op: Uuid, env: Envelope)
    ensures Called(s, c).table == Step(s.table, c).0
    ensures DispatchCalled(s, op, env).table == Step(s.table, Dispatch(op, env)).0
    ensures ConfirmCalled(s, op, env).table == Step(s.table, ConfirmCompletion(op, env)).0
  {
    hide Step, Wins;
  }

  lemma ContinuedCalls(s: System, task: Task)
    requires Enabled(s, Continue(task))
    ensures CallOf(Continue(task)).Some?
    ensures Continued(s, task).table == Step(s.table, CallOf(Continue(task)).value).0
  {
    hide Step, Called, DispatchCalled, ConfirmCalled, FreshAttempt, LossRecord;
    var op, env := task.op, task.env;
    var rest := s.(tasks := s.tasks - multiset{task});
    match task
    case ToCreate(_, _) => CalledTables(rest, Create(op, env), op, env);
    case ToDispatch(_, _) => CalledTables(rest, Create(op, env), op, env);
    case ToRun(_, _) => CalledTables(rest, Run(op, env), op, env);
    case ToConfirm(_, _) => CalledTables(rest, Create(op, env), op, env);
  }

  lemma EventCalls(s: System, e: Event)
    requires Enabled(s, e) && !e.Crash?
    ensures After(s, e).table == if CallOf(e).Some? then Step(s.table, CallOf(e).value).0 else s.table
  {
    hide Step, Enabled, Received, Recovering, Continued, Restarted;
    if IsMessage(e) {
      ReceivedCalls(s, e);
    } else if IsLoss(e) {
      RecoveringCalls(s, e);
    } else if e.Continue? {
      ContinuedCalls(s, e.task);
    }
  }

  /** While the process lives, the protocol's table is that of a registry run, so
      everything that holds of registry runs holds of it. */
  lemma {:induction false} TableIsRegistryRun(s: System, es: seq<Event>)
    requires IsRun(s, es) && Crash !in es
    ensures Final(s, es).table == RegistryRuns.Exec(s.table, Calls(es))
    decreases es
  {
    hide Step, Enabled, After, CallOf;
    if es != [] {
      EventCalls(s, es[0]);
      TableIsRegistryRun(After(s, es[0]), es[1..]);
      if CallOf(es[0]).Some? {
        assert ([CallOf(es[0]).value] + Calls(es[1..]))[1..] == Calls(es[1..]);
      } else {
        assert [] + Calls(es[1..]) == Calls(es[1..]);
      }
    }
  }

  /** Over protocol runs, an operation is known to have failed exactly when the last
      failure that was accepted since its last dispatch, by a worker's message or by a
      worker's loss, was unambiguous; and ambiguous exactly when that was. */
  lemma LastReportedFailureDecides(es: seq<Event>, op: Uuid)
    requires IsRun(START, es) && Crash !in es && op in Final(START, es).table
    ensures var state := Final(START, es).table[op].state;
            var last := RegistryLaws.LastFailure(map[], Calls(es), op, None);
            && (state == FAILED_KNOWN <==> last == Some(false))
            && (state == FAILED_AMBIGUOUS <==> last == Some(true))
  {
    hide IsRun, Final, Calls, RegistryLaws.LastFailure, RegistryRuns.Exec;
    TableIsRegistryRun(START, es);
    RegistryLaws.LastFailureDecides(Calls(es), op);
  }

  /** A worker's failure message that changes its operation leaves it known to have
      failed if its flag says unambiguous, and ambiguous if not. */
  lemma FailureMessageDecides(s: System, op: Uuid, env: Envelope, ambiguous: bool)
    requires Enabled(s, Failure(op, env, ambiguous))
    ensures var t := After(s, Failure(op, env, ambiguous));
            t.table != s.table ==>
              && op in s.table
              && t.table == s.table[op := s.table[op].(state := if ambiguous then FAILED_AMBIGUOUS else FAILED_KNOWN)]
  {
    hide Step, After, Enabled;
    EventCalls(s, Failure(op, env, ambiguous));
    RegistryLaws.UnknownExactly(s.table, ReportFailure(op, env, ambiguous));
    if op in s.table && s.table[op].recorded {
      RegistryLaws.RecordedAnswers(s.table, ReportFailure(op, env, ambiguous));
    } else if op in s.table {
      var to := if ambiguous then FAILED_AMBIGUOUS else FAILED_KNOWN;
      RegistryLaws.MovesExactly(s.table, ReportFailure(op, env, ambiguous), to);
    }
  }

  // ------------------------------------------------------- handlers come to an end

  /** A handler starts; one ends. */
  predicate Starts(s: System, e: Event) {
    e.ClientDispatch? || e.WorkerLost?
    || (e.Complete? && Step(s.table, ReportCompletion(e.op, e.env, false)).1 == OK)
  }

  predicate Ends(e: Event) {
    (e.Continue? && e.task.ToRun?) || e.Save? || e.Redispatch? || e.NoReplacement?
  }

  ghost function Started(s: System, es: seq<Event>): nat
    requires IsRun(s, es)
    decreases es
  {
    if es == [] then 0 else (if Starts(s, es[0]) then 1 else 0) + Started(After(s, es[0]), es[1..])
  }

  function Ended(es: seq<Event>): nat
    decreases es
  {
    if es == [] then 0 else (if Ends(es[0]) then 1 else 0) + Ended(es[1..])
  }

  lemma ReceivedBalance(s: System, e: Event)
    requires IsMessage(e)
    ensures |Received(s, e).tasks| == |s.tasks| + if Starts(s, e) then 1 else 0
  {
    hide Step;
  }

  lemma RecoveringBalance(s: System, e: Event)
    requires Enabled(s, e) && IsLoss(e)
    ensures |Recovering(s, e).tasks| + (if Ends(e) then 1 else 0) == |s.tasks| + if Starts(s, e) then 1 else 0
  {
    hide Step, Store.Append, FreshAttempt, LossRecord;
  }

  lemma ContinuedBalance(s: System, task: Task)
    requires Enabled(s, Continue(task))
    ensures |Continued(s, task).tasks| + (if Ends(Continue(task)) then 1 else 0) == |s.tasks|
  {
    hide Step, Wins;
  }

  lemma EventBalance(s: System, e: Event)
    requires Enabled(s, e) && !e.Crash?
    ensures |After(s, e).tasks| + (if Ends(e) then 1 else 0) == |s.tasks| + if Starts(s, e) then 1 else 0
  {
    hide Step, Received, Recovering, Continued, Restarted, FreshAttempt, LossRecord;
    if IsMessage(e) {
      ReceivedBalance(s, e);
    } else if IsLoss(e) {
      RecoveringBalance(s, e);
    } else if e.Continue? {
      ContinuedBalance(s, e.task);
    }
  }

  /** No handler is lost or doubled: while the process lives, the handlers under way are
      those that were started and have not ended. */
  lemma {:induction false} HandlersBalance(s: System, es: seq<Event>)
    requires IsRun(s, es) && Crash !in es
    ensures |Final(s, es).tasks| + Ended(es) == |s.tasks| + Started(s, es)
    decreases es
  {
    hide Enabled, After, Starts, Ends;
    if es != [] {
      EventBalance(s, es[0]);
      HandlersBalance(After(s, es[0]), es[1..]);
    }
  }
}

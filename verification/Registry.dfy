/** The operation registry: every call is one atomic step on a table of operations. */
module Registry {
  import opened Bytes
  import opened Ids
  import opened Authority
  import opened Operation

  datatype ApplyResult =
    | OK | STALE_REJECTED | ILLEGAL_TRANSITION | ALREADY_TERMINAL
    | CONFLICT | UNKNOWN_OPERATION | FENCED | ALREADY_REPORTED

  datatype Runtime = Runtime(
    state: State,
    authority: Envelope,
    terminal: Envelope,
    recorded: bool,
    attempts: u32,
    outcome: Text,
    idempotent: bool,
    idemKey: Uuid)

  type Table = map<Uuid, Runtime>

  /** The bytes of "COMPLETED". */
  const COMPLETED: Text := [67, 79, 77, 80, 76, 69, 84, 69, 68]

  function Created(initial: Envelope): Runtime {
    Runtime(CREATED, initial, UNSET, false, 0, [], false, NULL_ID)
  }

  function Increment(n: u32): u32 {
    if n == 0xFFFF_FFFF then 0 else n + 1
  }

  // -------------------------------------------------------------- specification

  datatype Call =
    | Create(op: Uuid, env: Envelope)
    | Dispatch(op: Uuid, env: Envelope)
    | Run(op: Uuid, env: Envelope)
    | ReportCompletion(op: Uuid, env: Envelope, partial: bool)
    | ConfirmCompletion(op: Uuid, env: Envelope)
    | ReportFailure(op: Uuid, env: Envelope, ambiguous: bool)
    | Transition(op: Uuid, to: State, env: Envelope)
    | RecordTerminal(op: Uuid, env: Envelope, outcome: Text)
    | Restore(op: Uuid, rt: Runtime)

  /** The state a fenced call asks for; the terminal five for RecordTerminal are tried apart. */
  function Target(c: Call): State
    requires c.Run? || c.ReportCompletion? || c.ConfirmCompletion? || c.ReportFailure? || c.Transition?
  {
    match c
    case Run(_, _) => RUNNING
    case ReportCompletion(_, _, partial) => if partial then PARTIALLY_SUCCEEDED else COMPLETION_REPORTED
    case ConfirmCompletion(_, _) => COMPLETION_CONFIRMED
    case ReportFailure(_, _, ambiguous) => if ambiguous then FAILED_AMBIGUOUS else FAILED_KNOWN
    case Transition(_, to, _) => to
  }

  /** The first terminal state record_terminal can reach, in the order it tries them. */
  function FirstTerminal(s: State): Option<State> {
    if Allowed(s, TERMINAL_FAILED) then Some(TERMINAL_FAILED)
    else if Allowed(s, CANCELLED) then Some(CANCELLED)
    else if Allowed(s, RECOVERED) then Some(RECOVERED)
    else if Allowed(s, ABANDONED) then Some(ABANDONED)
    else if Allowed(s, COMPLETION_CONFIRMED) then Some(COMPLETION_CONFIRMED)
    else None
  }

  predicate PassesFence(r: Runtime, c: Call)
    requires !c.Create? && !c.Dispatch? && !c.Restore?
  {
    if c.ReportCompletion? || c.ConfirmCompletion?
    then FenceCompletion(c.env, r.authority, r.terminal) == Accepted
    else FenceFailure(c.env, r.authority) == Accepted
  }

  /** One call on an operation that is in the table. A restore, which returns a
      bool, answers OK for true and CONFLICT for false. */
  function Apply(r: Runtime, c: Call): (Runtime, ApplyResult) {
    if c.Create? then (r, ALREADY_TERMINAL)
    else if c.Restore? then (r, CONFLICT)
    else if r.recorded then
      (r, if c.RecordTerminal? && c.outcome == r.outcome then OK else ALREADY_TERMINAL)
    else if c.Dispatch? then
      if IsTerminal(r.state) then (r.(authority := c.env), ILLEGAL_TRANSITION)
      else (r.(authority := c.env, state := DISPATCHED, attempts := Increment(r.attempts)), OK)
    else if !PassesFence(r, c) then (r, STALE_REJECTED)
    else if c.RecordTerminal? then
      match FirstTerminal(r.state)
      case None => (r, ILLEGAL_TRANSITION)
      case Some(s) => (r.(state := s, recorded := true, terminal := c.env, outcome := c.outcome), OK)
    else if c.ReportCompletion? && (r.state == COMPLETION_REPORTED || r.state == COMPLETION_CONFIRMED) then
      (r, ALREADY_REPORTED)
    else if !Allowed(r.state, Target(c)) then (r, ILLEGAL_TRANSITION)
    else if c.ConfirmCompletion? then
      (r.(state := COMPLETION_CONFIRMED, recorded := true, terminal := c.env, outcome := COMPLETED), OK)
    else (r.(state := Target(c)), OK)
  }

  /** One call on the table. */
  function Step(t: Table, c: Call): (Table, ApplyResult) {
    if c.op in t then
      var (r, result) := Apply(t[c.op], c);
      (t[c.op := r], result)
    else
      match c
      case Create(op, env) => (t[op := Created(env)], OK)
      case Restore(op, rt) => (t[op := rt], OK)
      case _ => (t, UNKNOWN_OPERATION)
  }

  // ------------------------------------------------------------ the class itself

  class OperationRegistry {
    var ops: Table

    constructor ()
      ensures ops == map[]
    {
      ops := map[];
    }

    method Create(op: Uuid, initial: Envelope) returns (result: ApplyResult)
      modifies this
      ensures (ops, result) == Step(old(ops), Call.Create(op, initial))
    {
      if op in ops {
        assert ops == ops[op := ops[op]];
        return ALREADY_TERMINAL;
      }
      ops := ops[op := Created(initial)];
      return OK;
    }

    method Dispatch(op: Uuid, attempt: Envelope) returns (result: ApplyResult)
      modifies this
      ensures (ops, result) == Step(old(ops), Call.Dispatch(op, attempt))
    {
      if op !in ops {
        return UNKNOWN_OPERATION;
      }
      var r := ops[op];
      assert ops == ops[op := r];
      if r.recorded {
        return ALREADY_TERMINAL;
      }
      r := r.(authority := attempt);
      ops := ops[op := r];
      var machine := new OperationStateMachine(r.state);
      if IsTerminal(machine.state) {
        assert ops == old(ops)[op := r];
        return ILLEGAL_TRANSITION;
      }
      if machine.state != DISPATCHED {
        machine.Reset(DISPATCHED);
      }
      r := r.(state := machine.state, attempts := Increment(r.attempts));
      ops := ops[op := r];
      assert ops == old(ops)[op := r];
      return OK;
    }

    method Run(op: Uuid, attempt: Envelope) returns (result: ApplyResult)
      modifies this
      ensures (ops, result) == Step(old(ops), Call.Run(op, attempt))
    {
      if op !in ops {
        return UNKNOWN_OPERATION;
      }
      var r := ops[op];
      assert ops == ops[op := r];
      if r.recorded {
        return ALREADY_TERMINAL;
      }
      if FenceFailure(attempt, r.authority) != Accepted {
        return STALE_REJECTED;
      }
      var machine := new OperationStateMachine(r.state);
      var moved := machine.Transition(RUNNING);
      if !moved {
        return ILLEGAL_TRANSITION;
      }
      ops := ops[op := r.(state := machine.state)];
      return OK;
    }

    method ReportCompletion(op: Uuid, attempt: Envelope, partial: bool) returns (result: ApplyResult)
      modifies this
      ensures (ops, result) == Step(old(ops), Call.ReportCompletion(op, attempt, partial))
    {
      if op !in ops {
        return UNKNOWN_OPERATION;
      }
      var r := ops[op];
      assert ops == ops[op := r];
      if r.recorded {
        return ALREADY_TERMINAL;
      }
      if FenceCompletion(attempt, r.authority, r.terminal) != Accepted {
        return STALE_REJECTED;
      }
      var machine := new OperationStateMachine(r.state);
      if machine.state == COMPLETION_REPORTED || machine.state == COMPLETION_CONFIRMED {
        return ALREADY_REPORTED;
      }
      var moved := machine.Transition(if partial then PARTIALLY_SUCCEEDED else COMPLETION_REPORTED);
      if !moved {
        return ILLEGAL_TRANSITION;
      }
      ops := ops[op := r.(state := machine.state)];
      return OK;
    }

    method ConfirmCompletion(op: Uuid, attempt: Envelope) returns (result: ApplyResult)
      modifies this
      ensures (ops, result) == Step(old(ops), Call.ConfirmCompletion(op, attempt))
    {
      if op !in ops {
        return UNKNOWN_OPERATION;
      }
      var r := ops[op];
      assert ops == ops[op := r];
      if r.recorded {
        return ALREADY_TERMINAL;
      }
      if FenceCompletion(attempt, r.authority, r.terminal) != Accepted {
        return STALE_REJECTED;
      }
      var machine := new OperationStateMachine(r.state);
      var moved := machine.Transition(COMPLETION_CONFIRMED);
      if !moved {
        return ILLEGAL_TRANSITION;
      }
      ops := ops[op := r.(state := machine.state, recorded := true, terminal := attempt, outcome := COMPLETED)];
      return OK;
    }

    method ReportFailure(op: Uuid, attempt: Envelope, ambiguous: bool) returns (result: ApplyResult)
      modifies this
      ensures (ops, result) == Step(old(ops), Call.ReportFailure(op, attempt, ambiguous))
    {
      if op !in ops {
        return UNKNOWN_OPERATION;
      }
      var r := ops[op];
      assert ops == ops[op := r];
      if r.recorded {
        return ALREADY_TERMINAL;
      }
      if FenceFailure(attempt, r.authority) != Accepted {
        return STALE_REJECTED;
      }
      var machine := new OperationStateMachine(r.state);
      var moved := machine.Transition(if ambiguous then FAILED_AMBIGUOUS else FAILED_KNOWN);
      if !moved {
        return ILLEGAL_TRANSITION;
      }
      ops := ops[op := r.(state := machine.state)];
      return OK;
    }

    method Transition(op: Uuid, to: State, attempt: Envelope) returns (result: ApplyResult)
      modifies this
      ensures (ops, result) == Step(old(ops), Call.Transition(op, to, attempt))
    {
      if op !in ops {
        return UNKNOWN_OPERATION;
      }
      var r := ops[op];
      assert ops == ops[op := r];
      if r.recorded {
        return ALREADY_TERMINAL;
      }
      if FenceFailure(attempt, r.authority) != Accepted {
        return STALE_REJECTED;
      }
      var machine := new OperationStateMachine(r.state);
      var moved := machine.Transition(to);
      if !moved {
        return ILLEGAL_TRANSITION;
      }
      ops := ops[op := r.(state := machine.state)];
      return OK;
    }

    method RecordTerminal(op: Uuid, attempt: Envelope, outcome: Text) returns (result: ApplyResult)
      modifies this
      ensures (ops, result) == Step(old(ops), Call.RecordTerminal(op, attempt, outcome))
    {
      if op !in ops {
        return UNKNOWN_OPERATION;
      }
      var r := ops[op];
      assert ops == ops[op := r];
      if r.recorded {
        if r.outcome == outcome {
          return OK;
        }
        return ALREADY_TERMINAL;
      }
      if FenceFailure(attempt, r.authority) != Accepted {
        return STALE_REJECTED;
      }
      var machine := new OperationStateMachine(r.state);
      var moved := machine.Transition(TERMINAL_FAILED);
      if !moved {
        moved := machine.Transition(CANCELLED);
      }
      if !moved {
        moved := machine.Transition(RECOVERED);
      }
      if !moved {
        moved := machine.Transition(ABANDONED);
      }
      if !moved {
        moved := machine.Transition(COMPLETION_CONFIRMED);
      }
      if !moved {
        return ILLEGAL_TRANSITION;
      }
      ops := ops[op := r.(state := machine.state, recorded := true, terminal := attempt, outcome := outcome)];
      return OK;
    }

    method Restore(op: Uuid, rt: Runtime) returns (restored: bool)
      modifies this
      ensures ops == Step(old(ops), Call.Restore(op, rt)).0
      ensures restored == (op !in old(ops))
    {
      if op in ops {
        assert ops == ops[op := ops[op]];
        return false;
      }
      ops := ops[op := rt];
      return true;
    }

    method Clear()
      modifies this
      ensures ops == map[]
    {
      ops := map[];
    }
  }
}

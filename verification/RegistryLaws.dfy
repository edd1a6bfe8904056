/** What each registry call means, said in the fields of the envelopes and the
    operation, and what that comes to over runs. */
module RegistryLaws {
  import opened Bytes
  import opened Ids
  import opened Authority
  import opened Operation
  import opened Registry
  import opened RegistryRuns

  // ------------------------------------------------------------ one call at a time

  /** A call concerns its own operation only. */
  lemma OthersUntouched(t: Table, c: Call, op: Uuid)
    requires op != c.op
    ensures op in Step(t, c).0 <==> op in t
    ensures op in t ==> Step(t, c).0[op] == t[op]
  {
  }

  /** Nothing happens to an operation that is not known, unless it is created or restored. */
  lemma UnknownExactly(t: Table, c: Call)
    ensures Step(t, c).1 == UNKNOWN_OPERATION <==> c.op !in t && !c.Create? && !c.Restore?
    ensures Step(t, c).1 == UNKNOWN_OPERATION ==> Step(t, c).0 == t
  {
    if c.op in t {
      hide PassesFence, FirstTerminal, Allowed;
    }
  }

  /** A new operation starts at the beginning, under the given authority, with no
      attempt made and nothing on record. */
  lemma CreatesExactly(t: Table, op: Uuid, env: Envelope)
    ensures Step(t, Create(op, env)).1 == OK <==> op !in t
    ensures op in t ==> Step(t, Create(op, env)) == (t, ALREADY_TERMINAL)
    ensures op !in t ==>
              var r := Step(t, Create(op, env)).0[op];
              && r.state == CREATED && r.authority == env && r.attempts == 0
              && !r.recorded && r.terminal == UNSET && r.outcome == []
              && !r.idempotent && r.idemKey == NULL_ID
  {
    if op in t {
      assert t[op := t[op]] == t;
    }
  }

  /** A restore brings an operation back as it was given, unless its id is taken. */
  lemma RestoresExactly(t: Table, op: Uuid, rt: Runtime)
    ensures Step(t, Restore(op, rt)) == if op in t then (t, CONFLICT) else (t[op := rt], OK)
  {
    if op in t {
      assert t[op := t[op]] == t;
    }
  }

  /** A recorded outcome is final: the same outcome may be recorded again, anything
      else is answered ALREADY_TERMINAL, and neither changes anything. */
  lemma RecordedAnswers(t: Table, c: Call)
    requires c.op in t && t[c.op].recorded && !c.Create? && !c.Restore?
    ensures Step(t, c).0 == t
    ensures Step(t, c).1 == if c.RecordTerminal? && c.outcome == t[c.op].outcome then OK else ALREADY_TERMINAL
  {
    assert t[c.op := t[c.op]] == t;
  }

  /** A dispatch replaces the authority without asking, and succeeds unless a terminal
      state is there. */
  lemma DispatchesExactly(t: Table, op: Uuid, env: Envelope)
    requires op in t && !t[op].recorded
    ensures var (t', result) := Step(t, Dispatch(op, env));
            var r, r' := t[op], t'[op];
            && r'.authority == env
            && (result == OK <==> !IsTerminal(r.state))
            && (result == OK ==> r'.state == DISPATCHED && r'.attempts == (r.attempts + 1) % 0x1_0000_0000)
            && (result != OK ==> result == ILLEGAL_TRANSITION && r' == r.(authority := env))
            && (r'.recorded, r'.terminal, r'.outcome) == (r.recorded, r.terminal, r.outcome)
            && (r'.idempotent, r'.idemKey) == (r.idempotent, r.idemKey)
  {
  }

  /** Calls that are checked against the current authority. */
  predicate Fenced(c: Call) {
    !c.Create? && !c.Dispatch? && !c.Restore?
  }

  /** A fenced call is turned down as stale exactly if it is superseded or comes from
      the wrong boot; a completion also if it is of another dispatch, of an older
      operation generation, or no newer than the terminal envelope. */
  lemma StaleExactly(t: Table, c: Call)
    requires Fenced(c) && c.op in t && !t[c.op].recorded
    ensures var e, r := c.env, t[c.op];
            var cur := r.authority;
            Step(t, c).1 == STALE_REJECTED <==>
              || Superseded(e, cur)
              || (if c.ReportCompletion? || c.ConfirmCompletion? then
                    || (cur.dispatch != NULL_ID && e.dispatch != cur.dispatch)
                    || (cur.boot != NULL_ID && e.boot != cur.boot)
                    || e.operationGen < cur.operationGen
                    || (r.terminal != UNSET && e.attemptGen <= r.terminal.attemptGen
                        && e.operationGen <= r.terminal.operationGen)
                  else
                    cur.boot != NULL_ID && e.boot != NULL_ID && e.boot != cur.boot && e.attemptGen <= cur.attemptGen)
  {
    hide FenceCompletion, FenceFailure, FirstTerminal, Allowed, Target;
    CompletionBelievedExactly(c.env, t[c.op].authority, t[c.op].terminal);
    FailureBelievedExactly(c.env, t[c.op].authority);
  }

  /** No late call of any kind counts: one that is superseded, be it a report, a
      confirmation, a transition or a terminal record, is rejected and changes nothing. */
  lemma NoLateCallCounts(t: Table, c: Call)
    requires Fenced(c) && c.op in t && !t[c.op].recorded && Superseded(c.env, t[c.op].authority)
    ensures Step(t, c) == (t, STALE_REJECTED)
  {
    hide Apply;
    StaleExactly(t, c);
    RejectionChangesOnly(t, c);
  }

  /** So no call under an earlier envelope of a chain counts once a later one is current. */
  lemma NoLateCallCountsAlongChains(t: Table, c: Call, e: Envelope, ds: seq<Derivation>, i: nat, j: nat)
    requires Fenced(c) && c.op in t && !t[c.op].recorded
    requires i < j <= |ds| && CannotWrap(e, |ds|)
    requires c.env == Chain(e, ds[..i]) && t[c.op].authority == Chain(e, ds[..j])
    ensures Step(t, c) == (t, STALE_REJECTED)
  {
    hide Step, Chain, Advanced;
    ChainGenerations(e, ds[..i]);
    ChainGenerations(e, ds[..j]);
    AdvanceWithin(e.attemptGen, i);
    AdvanceWithin(e.attemptGen, j);
    NoLateCallCounts(t, c);
  }

  /** A run, a failure report or a transition that is not stale moves the state along an
      edge of the table, if there is one, and changes nothing else. The flag of a
      failure report decides which failure it is. */
  lemma MovesExactly(t: Table, c: Call, to: State)
    requires c.op in t && !t[c.op].recorded
    requires match c
             case Run(_, _) => to == RUNNING
             case ReportFailure(_, _, ambiguous) => to == if ambiguous then FAILED_AMBIGUOUS else FAILED_KNOWN
             case Transition(_, s, _) => to == s
             case _ => false
    ensures var (t', result) := Step(t, c);
            && (result == OK <==> result != STALE_REJECTED && t[c.op].state in Predecessors(to))
            && (result != OK ==> result == STALE_REJECTED || result == ILLEGAL_TRANSITION)
            && t' == if result == OK then t[c.op := t[c.op].(state := to)] else t
  {
    EnteredFromExactly(t[c.op].state, to);
    assert t[c.op := t[c.op]] == t;
    hide PassesFence, Allowed, FirstTerminal, Predecessors;
  }

  /** A completion that is not stale is taken from a running operation only; a partial
      one is kept apart from a whole one. */
  lemma CompletionReportedExactly(t: Table, op: Uuid, env: Envelope, partial: bool)
    requires op in t && !t[op].recorded
    ensures var (t', result) := Step(t, ReportCompletion(op, env, partial));
            var s := t[op].state;
            && (result == OK <==> result != STALE_REJECTED && s == RUNNING)
            && (result == ALREADY_REPORTED <==>
                  result != STALE_REJECTED && (s == COMPLETION_REPORTED || s == COMPLETION_CONFIRMED))
            && (result != OK && result != ALREADY_REPORTED ==> result == STALE_REJECTED || result == ILLEGAL_TRANSITION)
            && t' == if result != OK then t
                     else t[op := t[op].(state := if partial then PARTIALLY_SUCCEEDED else COMPLETION_REPORTED)]
  {
    assert t[op := t[op]] == t;
    hide FenceCompletion;
  }

  /** A confirmation that is not stale is taken from a reported operation only, and puts
      the outcome and its envelope on record. */
  lemma ConfirmsExactly(t: Table, op: Uuid, env: Envelope)
    requires op in t && !t[op].recorded
    ensures var (t', result) := Step(t, ConfirmCompletion(op, env));
            && (result == OK <==> result != STALE_REJECTED && t[op].state == COMPLETION_REPORTED)
            && (result != OK ==> result == STALE_REJECTED || result == ILLEGAL_TRANSITION)
            && t' == if result != OK then t
                     else t[op := t[op].(state := COMPLETION_CONFIRMED, recorded := true, terminal := env,
                                         outcome := [67, 79, 77, 80, 76, 69, 84, 69, 68])]
  {
    assert t[op := t[op]] == t;
    hide FenceCompletion;
  }

  /** A terminal record that is not stale ends every operation that has begun and not
      ended: as failed where it can fail, else as cancelled, and as confirmed only if
      its completion is reported. */
  lemma RecordsExactly(t: Table, op: Uuid, env: Envelope, outcome: Text)
    requires op in t && !t[op].recorded && t[op].state < 20
    ensures var (t', result) := Step(t, RecordTerminal(op, env, outcome));
            var s := t[op].state;
            && (result == OK <==> result != STALE_REJECTED && s != CREATED && !IsTerminal(s))
            && (result != OK ==> t' == t && (result == STALE_REJECTED || result == ILLEGAL_TRANSITION))
            && (result == OK ==>
                  var end := if s in Predecessors(TERMINAL_FAILED) then TERMINAL_FAILED
                             else if s == COMPLETION_REPORTED then COMPLETION_CONFIRMED else CANCELLED;
                  t' == t[op := t[op].(state := end, recorded := true, terminal := env, outcome := outcome)])
  {
    assert t[op := t[op]] == t;
    hide FenceFailure;
  }

  /** A failure report that is accepted leaves the operation known to have failed exactly
      if it was not ambiguous, and exactly then its reporter can cancel it. */
  lemma FlagDecidesFailure(t: Table, op: Uuid, env: Envelope, ambiguous: bool)
    requires op in t && Step(t, ReportFailure(op, env, ambiguous)).1 == OK
    ensures var t' := Step(t, ReportFailure(op, env, ambiguous)).0;
            && t'[op].state == (if ambiguous then FAILED_AMBIGUOUS else FAILED_KNOWN)
            && (Step(t', Transition(op, CANCELLED, env)).1 == OK <==> !ambiguous)
  {
    hide FenceFailure;
  }

  // ------------------------------------------------------- flags, over whole runs

  /** Calls that a coordinator makes: no transition, terminal record or restore. */
  predicate Protocol(c: Call) {
    !c.Transition? && !c.RecordTerminal? && !c.Restore?
  }

  /** The flag of the last failure report on op that was accepted since its creation or
      its last dispatch, given the flag so far. */
  function LastFailure(t: Table, cs: seq<Call>, op: Uuid, flag: Option<bool>): Option<bool>
    decreases cs
  {
    if cs == [] then flag
    else
      var (t', result) := Step(t, cs[0]);
      LastFailure(t', cs[1..], op,
                  if cs[0].op != op || result != OK then flag
                  else if cs[0].ReportFailure? then Some(cs[0].ambiguous)
                  else if cs[0].Create? || cs[0].Dispatch? then None
                  else flag)
  }

  /** The state says which failure, if any, was reported last. */
  ghost predicate FailureShown(t: Table, op: Uuid, flag: Option<bool>) {
    if op !in t then flag == None
    else
      && (t[op].state == FAILED_KNOWN <==> flag == Some(false))
      && (t[op].state == FAILED_AMBIGUOUS <==> flag == Some(true))
  }

  lemma FailureStep(t: Table, c: Call, op: Uuid, flag: Option<bool>)
    requires FailureShown(t, op, flag) && Protocol(c)
    ensures FailureShown(Step(t, c).0, op,
                         if c.op != op || Step(t, c).1 != OK then flag
                         else if c.ReportFailure? then Some(c.ambiguous)
                         else if c.Create? || c.Dispatch? then None
                         else flag)
  {
    hide FenceFailure, FenceCompletion, FirstTerminal;
  }

  lemma {:induction false} FailureRun(t: Table, cs: seq<Call>, op: Uuid, flag: Option<bool>)
    requires FailureShown(t, op, flag) && forall i :: 0 <= i < |cs| ==> Protocol(cs[i])
    ensures FailureShown(Exec(t, cs), op, LastFailure(t, cs, op, flag))
    decreases cs
  {
    hide Step, FailureShown, Protocol;
    if cs != [] {
      FailureStep(t, cs[0], op, flag);
      var flag' := if cs[0].op != op || Step(t, cs[0]).1 != OK then flag
                   else if cs[0].ReportFailure? then Some(cs[0].ambiguous)
                   else if cs[0].Create? || cs[0].Dispatch? then None
                   else flag;
      FailureRun(Step(t, cs[0]).0, cs[1..], op, flag');
    }
  }

  /** Over every run of such calls, an operation is known to have failed exactly when the
      last failure report accepted since its last dispatch was unambiguous, and is
      ambiguous exactly when that report was. */
  lemma LastFailureDecides(cs: seq<Call>, op: Uuid)
    requires forall i :: 0 <= i < |cs| ==> Protocol(cs[i])
    requires op in Exec(map[], cs)
    ensures var s := Exec(map[], cs)[op].state;
            && (s == FAILED_KNOWN <==> LastFailure(map[], cs, op, None) == Some(false))
            && (s == FAILED_AMBIGUOUS <==> LastFailure(map[], cs, op, None) == Some(true))
  {
    hide Exec, LastFailure;
    FailureRun(map[], cs, op, None);
  }

  /** The states an operation can be in after a partial success until it is dispatched
      again or retried. */
  predicate PastPartial(s: State) {
    s == PARTIALLY_SUCCEEDED || s == RETRY_PENDING || s > RETRYING
  }

  lemma PartialStep(t: Table, c: Call, op: Uuid)
    requires op in t && PastPartial(t[op].state)
    requires Count(t, c, op).1 == 0 && Count(t, c, op).2 == 0
    ensures op in Step(t, c).0 && PastPartial(Step(t, c).0[op].state)
    ensures c.ConfirmCompletion? && c.op == op ==> Step(t, c).1 != OK
  {
    hide FenceFailure, FenceCompletion;
  }

  lemma {:induction false} PartialRun(t: Table, cs: seq<Call>, op: Uuid)
    requires op in t && PastPartial(t[op].state)
    requires Dispatches(t, cs, op) == 0 && RetriesTaken(t, cs, op) == 0
    ensures op in Exec(t, cs) && PastPartial(Exec(t, cs)[op].state)
    ensures Confirmations(t, cs, op) == 0
    decreases cs
  {
    hide Step, Count, PastPartial;
    if cs != [] {
      PartialStep(t, cs[0], op);
      PartialRun(Step(t, cs[0]).0, cs[1..], op);
    }
  }

  /** A partial completion is never confirmed: once it is accepted, in every run without
      a new dispatch or a retry of the operation no confirmation of it succeeds. */
  lemma PartialNeverConfirmed(t: Table, op: Uuid, env: Envelope, cs: seq<Call>)
    requires op in t && !t[op].recorded && Step(t, ReportCompletion(op, env, true)).1 == OK
    requires var t' := Step(t, ReportCompletion(op, env, true)).0;
             Dispatches(t', cs, op) == 0 && RetriesTaken(t', cs, op) == 0
    ensures var t' := Step(t, ReportCompletion(op, env, true)).0;
            && Confirmations(t', cs, op) == 0
            && op in Exec(t', cs) && Exec(t', cs)[op].state != COMPLETION_CONFIRMED
  {
    hide Step, Exec, Confirmations, Dispatches, RetriesTaken;
    CompletionReportedExactly(t, op, env, true);
    PartialRun(Step(t, ReportCompletion(op, env, true)).0, cs, op);
  }

  /** A whole one can be, by its reporter and at once. */
  lemma WholeCanBeConfirmed(t: Table, op: Uuid, env: Envelope)
    requires op in t && !t[op].recorded && Step(t, ReportCompletion(op, env, false)).1 == OK
    ensures Step(Step(t, ReportCompletion(op, env, false)).0, ConfirmCompletion(op, env)).1 == OK
  {
    hide FenceCompletion;
  }
}

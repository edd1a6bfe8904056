/** What holds of the registry over whole runs: arbitrary interleavings of its calls. */
module RegistryRuns {
  import opened Bytes
  import opened Ids
  import opened Authority
  import opened Operation
  import opened Registry

  /** The table after the calls, in order. */
  function Exec(t: Table, cs: seq<Call>): Table
    decreases cs
  {
    if cs == [] then t else Exec(Step(t, cs[0]).0, cs[1..])
  }

  // ---------------------------------------------------- terminal outcomes stay

  lemma StepFreezes(t: Table, c: Call, op: Uuid)
    requires op in t
    ensures op in Step(t, c).0
    ensures t[op].recorded ==> Step(t, c).0[op] == t[op]
    ensures IsTerminal(t[op].state) ==> Step(t, c).0[op].state == t[op].state
  {
    if IsTerminal(t[op].state) && t[op].state < 20 {
      TerminalIsFinal(t[op].state);
    }
  }

  /** Once a terminal outcome is recorded, no later call changes anything about the operation. */
  lemma {:induction false} OutcomeFrozen(t: Table, cs: seq<Call>, op: Uuid)
    requires op in t && t[op].recorded
    ensures op in Exec(t, cs) && Exec(t, cs)[op] == t[op]
    decreases cs
  {
    if cs != [] {
      StepFreezes(t, cs[0], op);
      OutcomeFrozen(Step(t, cs[0]).0, cs[1..], op);
    }
  }

  /** A terminal state is never left, even one entered by a generic transition
      that recorded no outcome. */
  lemma {:induction false} TerminalNeverLeft(t: Table, cs: seq<Call>, op: Uuid)
    requires op in t && IsTerminal(t[op].state)
    ensures op in Exec(t, cs) && Exec(t, cs)[op].state == t[op].state
    decreases cs
  {
    if cs != [] {
      StepFreezes(t, cs[0], op);
      TerminalNeverLeft(Step(t, cs[0]).0, cs[1..], op);
    }
  }

  // -------------------------------------------------------- reachable registries

  /** What every operation of a reachable registry satisfies. */
  predicate Sound(r: Runtime) {
    && r.state < 20
    && (r.recorded ==> IsTerminal(r.state))
    && (r.recorded <==> !r.terminal.IsUnset())
  }

  ghost predicate AllSound(t: Table) {
    forall op :: op in t ==> Sound(t[op])
  }

  /** Restores, if any, put sound operations back. */
  ghost predicate SoundRestores(cs: seq<Call>) {
    forall i :: 0 <= i < |cs| && cs[i].Restore? ==> Sound(cs[i].rt)
  }

  lemma AllowedInRange(from: State, to: State)
    requires Allowed(from, to)
    ensures to < 20
  {
  }

  lemma ApplySound(r: Runtime, c: Call)
    requires Sound(r)
    ensures Sound(Apply(r, c).0)
  {
    if c.Run? || c.ReportCompletion? || c.ConfirmCompletion? || c.ReportFailure? || c.Transition? {
      if Allowed(r.state, Target(c)) {
        AllowedInRange(r.state, Target(c));
      }
    }
  }

  lemma {:induction false} RunsStaySound(t: Table, cs: seq<Call>)
    requires AllSound(t) && SoundRestores(cs)
    ensures AllSound(Exec(t, cs))
    decreases cs
  {
    if cs != [] {
      var c := cs[0];
      if c.op in t {
        ApplySound(t[c.op], c);
      }
      RunsStaySound(Step(t, c).0, cs[1..]);
    }
  }

  /** Terminal record implies terminal state, and no record implies no terminal
      envelope, in every registry reached from an empty one. */
  lemma ReachableIsSound(cs: seq<Call>, op: Uuid)
    requires SoundRestores(cs) && op in Exec(map[], cs)
    ensures Exec(map[], cs)[op].recorded ==> IsTerminal(Exec(map[], cs)[op].state)
    ensures !Exec(map[], cs)[op].recorded <==> Exec(map[], cs)[op].terminal.IsUnset()
  {
    RunsStaySound(map[], cs);
  }

  // -------------------------------------------------------------- no stuck operation

  /** The four calls that carry an operation from dispatch to confirmation. */
  function Completion(op: Uuid, e: Envelope): seq<Call> {
    [Dispatch(op, e), Run(op, e), ReportCompletion(op, e, false), ConfirmCompletion(op, e)]
  }

  /** No terminal envelope, or an older one: what the completion fence asks of e. */
  predicate NewerThanTerminal(e: Envelope, terminal: Envelope) {
    terminal.IsUnset() || e.attemptGen > terminal.attemptGen || e.operationGen > terminal.operationGen
  }

  lemma CompletionSteps(r: Runtime, op: Uuid, e: Envelope)
    requires !r.recorded && !IsTerminal(r.state) && !e.IsUnset()
    ensures var (r1, a1) := Apply(r, Dispatch(op, e));
            var (r2, a2) := Apply(r1, Run(op, e));
            var (r3, a3) := Apply(r2, ReportCompletion(op, e, false));
            var (r4, a4) := Apply(r3, ConfirmCompletion(op, e));
            && a1 == a2 == OK
            && if NewerThanTerminal(e, r.terminal)
               then a3 == a4 == OK && r4.recorded && r4.terminal == e && r4.state == COMPLETION_CONFIRMED
               else a3 == a4 == STALE_REJECTED
  {
  }

  /** The results of the calls, in order. */
  function Results(t: Table, cs: seq<Call>): seq<ApplyResult>
    decreases cs
  {
    if cs == [] then [] else [Step(t, cs[0]).1] + Results(Step(t, cs[0]).0, cs[1..])
  }

  /** Exactly which operations can be completed, in any table at all, one put there by
      loading a file included: those without an older terminal envelope in the way. */
  lemma CompletableExactly(t0: Table, op: Uuid, e: Envelope)
    requires op in t0 && !t0[op].recorded && !IsTerminal(t0[op].state) && !e.IsUnset()
    ensures Results(t0, Completion(op, e))
            == if NewerThanTerminal(e, t0[op].terminal) then [OK, OK, OK, OK]
               else [OK, OK, STALE_REJECTED, STALE_REJECTED]
  {
    CompletionSteps(t0[op], op, e);
    hide Apply;
    var plan := Completion(op, e);
    var t1 := Step(t0, plan[0]).0;
    var t2 := Step(t1, plan[1]).0;
    var t3 := Step(t2, plan[2]).0;
    assert plan[1..][1..] == plan[2..] && plan[2..][1..] == plan[3..] && plan[3..][1..] == [];
    assert Results(t3, plan[3..]) == [Step(t3, plan[3]).1];
    assert Results(t2, plan[2..]) == [Step(t2, plan[2]).1, Step(t3, plan[3]).1];
    assert Results(t1, plan[1..]) == [OK, Step(t2, plan[2]).1, Step(t3, plan[3]).1];
  }

  /** No operation gets stuck: in every reachable registry each operation that is
      not terminal can be driven to a confirmed outcome under any set envelope. */
  lemma NoStuckOperation(cs: seq<Call>, op: Uuid, e: Envelope)
    requires SoundRestores(cs) && op in Exec(map[], cs)
    requires !IsTerminal(Exec(map[], cs)[op].state) && !e.IsUnset()
    ensures Results(Exec(map[], cs), Completion(op, e)) == [OK, OK, OK, OK]
  {
    hide Results, Completion, Exec;
    RunsStaySound(map[], cs);
    CompletableExactly(Exec(map[], cs), op, e);
  }

  // ------------------------------------------------------------- rejected calls

  /** A call that is turned down changes the table in one case only: a dispatch
      of an operation whose terminal state was never recorded, under an envelope
      that differs from the current one. */
  lemma RejectionChangesOnly(t: Table, c: Call)
    requires Step(t, c).1 != OK
    ensures Step(t, c).0 != t <==>
              c.Dispatch? && c.op in t && !t[c.op].recorded && IsTerminal(t[c.op].state)
              && t[c.op].authority != c.env
  {
    if c.op in t {
      var r := Apply(t[c.op], c).0;
      if r == t[c.op] {
        assert t[c.op := r] == t;
      } else {
        assert t[c.op := r][c.op] != t[c.op];
      }
    }
  }

  /** Such a call, reached from an empty registry: cancelled without a record, then
      dispatched again. */
  lemma RejectedDispatchChanges(op: Uuid, e: Envelope, f: Envelope)
    requires !e.IsUnset() && f != e
    ensures var t := Exec(map[], [Create(op, e), Dispatch(op, e), Transition(op, CANCELLED, e)]);
            Step(t, Dispatch(op, f)).1 == ILLEGAL_TRANSITION && Step(t, Dispatch(op, f)).0 != t
  {
    CurrentIsAccepted(e);
    var c0, c1, c2 := Create(op, e), Dispatch(op, e), Transition(op, CANCELLED, e);
    assert [c0, c1, c2][1..] == [c1, c2] && [c1, c2][1..] == [c2] && [c2][1..] == [];
    var t1 := Step(map[], c0).0;
    var t2 := Step(t1, c1).0;
    var t := Step(t2, c2).0;
    assert t[op].state == CANCELLED && t[op].authority == e && !t[op].recorded;
    assert Exec(t2, [c2]) == t;
    assert Exec(t1, [c1, c2]) == t;
    RejectionChangesOnly(t, Dispatch(op, f));
  }

  ghost predicate TerminalMeansRecorded(t: Table) {
    forall op :: op in t ==> (IsTerminal(t[op].state) <==> t[op].recorded)
  }

  /** No generic transition succeeds in entering a terminal state, and restores
      bring back terminal states only with their record. */
  ghost predicate NeverSlipsIn(t: Table, cs: seq<Call>)
    decreases cs
  {
    cs == [] || (
      var c := cs[0];
      && (c.Transition? && IsTerminal(c.to) ==> Step(t, c).1 != OK)
      && (c.Restore? ==> (IsTerminal(c.rt.state) <==> c.rt.recorded))
      && NeverSlipsIn(Step(t, c).0, cs[1..]))
  }

  lemma StepKeepsRecords(t: Table, c: Call)
    requires TerminalMeansRecorded(t)
    requires c.Transition? && IsTerminal(c.to) ==> Step(t, c).1 != OK
    requires c.Restore? ==> (IsTerminal(c.rt.state) <==> c.rt.recorded)
    ensures TerminalMeansRecorded(Step(t, c).0)
  {
  }

  /** In such a run, being terminal and being recorded coincide after every
      prefix, and every call that is not answered OK leaves the table as it was. */
  lemma {:induction false} RejectionsAreNoOps(t: Table, cs: seq<Call>, i: nat)
    requires TerminalMeansRecorded(t) && NeverSlipsIn(t, cs) && i < |cs|
    ensures TerminalMeansRecorded(Exec(t, cs[..i]))
    ensures Step(Exec(t, cs[..i]), cs[i]).1 != OK ==> Step(Exec(t, cs[..i]), cs[i]).0 == Exec(t, cs[..i])
    decreases cs
  {
    if i == 0 {
      if Step(t, cs[0]).1 != OK {
        RejectionChangesOnly(t, cs[0]);
      }
    } else {
      hide Step, TerminalMeansRecorded;
      StepKeepsRecords(t, cs[0]);
      RejectionsAreNoOps(Step(t, cs[0]).0, cs[1..], i - 1);
      assert cs[..i][1..] == cs[1..][..i - 1];
    }
  }

  // ------------------------------------------------------------ run-length bound

  /** Calls on op answered OK, repeats of a recorded outcome not counted. */
  function Successes(t: Table, cs: seq<Call>, op: Uuid): nat
    decreases cs
  {
    if cs == [] then 0
    else Count(t, cs[0], op).0 + Successes(Step(t, cs[0]).0, cs[1..], op)
  }

  function Dispatches(t: Table, cs: seq<Call>, op: Uuid): nat
    decreases cs
  {
    if cs == [] then 0
    else Count(t, cs[0], op).1 + Dispatches(Step(t, cs[0]).0, cs[1..], op)
  }

  function RetriesTaken(t: Table, cs: seq<Call>, op: Uuid): nat
    decreases cs
  {
    if cs == [] then 0
    else Count(t, cs[0], op).2 + RetriesTaken(Step(t, cs[0]).0, cs[1..], op)
  }

  /** What one call adds to the three counts. */
  function Count(t: Table, c: Call, op: Uuid): (nat, nat, nat) {
    if op !in t || c.op != op || Step(t, c).1 != OK || t[op].recorded then (0, 0, 0)
    else (1, if c.Dispatch? then 1 else 0, IsRetry(t[op].state, Step(t, c).0[op].state))
  }

  lemma CountPays(t: Table, c: Call, op: Uuid)
    requires op in t && Sound(t[op])
    ensures op in Step(t, c).0 && Sound(Step(t, c).0[op])
    ensures var (n, d, r) := Count(t, c, op);
            n + Potential(Step(t, c).0[op].state) <= Potential(t[op].state) + 7 * r + 10 * d
  {
    if c.op == op {
      ApplySound(t[op], c);
      ApplyPays(t[op], c);
    }
  }

  lemma ApplyPays(r: Runtime, c: Call)
    requires Sound(r)
    ensures var (r', result) := Apply(r, c);
            && (result != OK || r.recorded ==> r'.state == r.state)
            && (result == OK && !r.recorded ==>
                  1 + Potential(r'.state)
                  <= Potential(r.state) + 7 * IsRetry(r.state, r'.state) + if c.Dispatch? then 10 else 0)
  {
    var (r', result) := Apply(r, c);
    if result == OK && !r.recorded {
      if c.Dispatch? {
        assert Potential(r.state) >= 1;
      } else {
        PotentialDrops(r.state, r'.state);
      }
    }
  }

  lemma {:induction false} SuccessesPaid(t: Table, cs: seq<Call>, op: Uuid)
    requires op in t && Sound(t[op])
    ensures op in Exec(t, cs)
    ensures Successes(t, cs, op) + Potential(Exec(t, cs)[op].state)
            <= Potential(t[op].state) + 7 * RetriesTaken(t, cs, op) + 10 * Dispatches(t, cs, op)
    decreases cs
  {
    if cs != [] {
      CountPays(t, cs[0], op);
      SuccessesPaid(Step(t, cs[0]).0, cs[1..], op);
    }
  }

  /** After its creation an operation with D successful dispatches and R retries
      sees at most 11 + 7R + 10D further calls answered OK. */
  lemma SuccessBound(t: Table, op: Uuid, initial: Envelope, cs: seq<Call>)
    requires op !in t
    ensures var created := Step(t, Create(op, initial)).0;
            Successes(created, cs, op)
            <= 11 + 7 * RetriesTaken(created, cs, op) + 10 * Dispatches(created, cs, op)
  {
    var created := Step(t, Create(op, initial)).0;
    assert created[op] == Created(initial);
    SuccessesPaid(created, cs, op);
  }

  /** n increments of a 32-bit counter. */
  function Counted(a: u32, n: nat): u32 {
    (a + n) % 0x1_0000_0000
  }

  lemma CountedTwice(a: u32, m: nat, n: nat)
    ensures Counted(Counted(a, m), n) == Counted(a, m + n)
  {
    assert (a + m) % 0x1_0000_0000 + n == a + m + n - 0x1_0000_0000 * ((a + m) / 0x1_0000_0000);
  }

  lemma CountedOnce(a: u32)
    ensures Counted(a, 0) == a && Counted(a, 1) == Increment(a)
  {
  }

  lemma AttemptStep(t: Table, c: Call, op: Uuid)
    requires op in t
    ensures op in Step(t, c).0
    ensures Step(t, c).0[op].attempts == Counted(t[op].attempts, Count(t, c, op).1)
  {
    hide PassesFence, FirstTerminal, Target, Allowed, IsRetry, Counted, Increment;
    CountedOnce(t[op].attempts);
  }

  /** The attempt counter counts the successful dispatches, in 32 bits. */
  lemma {:induction false} AttemptsCountDispatches(t: Table, cs: seq<Call>, op: Uuid)
    requires op in t
    ensures op in Exec(t, cs)
    ensures Exec(t, cs)[op].attempts == Counted(t[op].attempts, Dispatches(t, cs, op))
    decreases cs
  {
    hide Step, Count, Counted;
    if cs == [] {
      CountedOnce(t[op].attempts);
    } else {
      AttemptStep(t, cs[0], op);
      AttemptsCountDispatches(Step(t, cs[0]).0, cs[1..], op);
      CountedTwice(t[op].attempts, Count(t, cs[0], op).1, Dispatches(Step(t, cs[0]).0, cs[1..], op));
    }
  }

  // ------------------------------------------------------- the bound is met

  lemma {:induction false} ExecAppends(t: Table, cs: seq<Call>, c: Call, op: Uuid)
    ensures Exec(t, cs + [c]) == Step(Exec(t, cs), c).0
    ensures Successes(t, cs + [c], op) == Successes(t, cs, op) + Count(Exec(t, cs), c, op).0
    ensures Dispatches(t, cs + [c], op) == Dispatches(t, cs, op) + Count(Exec(t, cs), c, op).1
    ensures RetriesTaken(t, cs + [c], op) == RetriesTaken(t, cs, op) + Count(Exec(t, cs), c, op).2
    decreases cs
  {
    hide Step, Count;
    if cs == [] {
      assert [] + [c] == [c];
    } else {
      ExecAppends(Step(t, cs[0]).0, cs[1..], c, op);
      assert (cs + [c])[1..] == cs[1..] + [c];
    }
  }

  /** Some run under the envelope e brings op to s with n calls answered OK, of which
      d dispatch and r take the retry edge, and records nothing. */
  ghost predicate Brought(t: Table, op: Uuid, e: Envelope, s: State, n: nat, d: nat, r: nat) {
    exists cs :: BroughtBy(t, cs, op, e, s, n, d, r)
  }

  ghost predicate BroughtBy(t: Table, cs: seq<Call>, op: Uuid, e: Envelope, s: State, n: nat, d: nat, r: nat) {
    && op in Exec(t, cs)
    && (var rt := Exec(t, cs)[op]; rt.state == s && rt.authority == e && !rt.recorded)
    && Successes(t, cs, op) == n && Dispatches(t, cs, op) == d && RetriesTaken(t, cs, op) == r
  }

  lemma MoveCounts(t: Table, op: Uuid, e: Envelope, to: State)
    requires op in t && t[op].authority == e && !t[op].recorded && !e.IsUnset() && Allowed(t[op].state, to)
    ensures Count(t, Transition(op, to, e), op) == (1, 0, IsRetry(t[op].state, to))
    ensures Step(t, Transition(op, to, e)).0 == t[op := t[op].(state := to)]
  {
    CurrentIsAccepted(e);
    hide Allowed, FenceFailure, FenceCompletion;
  }

  lemma Moved(t: Table, op: Uuid, e: Envelope, s: State, n: nat, d: nat, r: nat, to: State)
    requires Brought(t, op, e, s, n, d, r) && !e.IsUnset() && Allowed(s, to)
    ensures Brought(t, op, e, to, n + 1, d, r + IsRetry(s, to))
  {
    hide Step, Count, Allowed, Exec, Successes, Dispatches, RetriesTaken, IsRetry;
    var cs :| BroughtBy(t, cs, op, e, s, n, d, r);
    var c := Transition(op, to, e);
    ExecAppends(t, cs, c, op);
    MoveCounts(Exec(t, cs), op, e, to);
    assert BroughtBy(t, cs + [c], op, e, to, n + 1, d, r + IsRetry(s, to));
  }

  lemma Redispatched(t: Table, op: Uuid, e: Envelope, s: State, n: nat, d: nat, r: nat)
    requires Brought(t, op, e, s, n, d, r) && !IsTerminal(s)
    ensures Brought(t, op, e, DISPATCHED, n + 1, d + 1, r)
  {
    hide Exec, Successes, Dispatches, RetriesTaken;
    var cs :| BroughtBy(t, cs, op, e, s, n, d, r);
    var c := Dispatch(op, e);
    ExecAppends(t, cs, c, op);
    assert BroughtBy(t, cs + [c], op, e, DISPATCHED, n + 1, d + 1, r);
  }

  /** From DISPATCHED or RETRYING the long way to ROLLING_BACK. */
  lemma ToRollback(t: Table, op: Uuid, e: Envelope, s: State, n: nat, d: nat, r: nat)
    requires Brought(t, op, e, s, n, d, r) && !e.IsUnset() && (s == DISPATCHED || s == RETRYING)
    ensures Brought(t, op, e, ROLLING_BACK, n + 5, d, r)
  {
    hide Brought;
    Moved(t, op, e, s, n, d, r, RUNNING);
    Moved(t, op, e, RUNNING, n + 1, d, r, COMPLETION_REPORTED);
    Moved(t, op, e, COMPLETION_REPORTED, n + 2, d, r, FAILED_KNOWN);
    Moved(t, op, e, FAILED_KNOWN, n + 3, d, r, ROLLBACK_PENDING);
    Moved(t, op, e, ROLLBACK_PENDING, n + 4, d, r, ROLLING_BACK);
  }

  /** From ROLLING_BACK the long way to RECOVERING. */
  lemma ToRecovering(t: Table, op: Uuid, e: Envelope, n: nat, d: nat, r: nat)
    requires Brought(t, op, e, ROLLING_BACK, n, d, r) && !e.IsUnset()
    ensures Brought(t, op, e, RECOVERING, n + 4, d, r)
  {
    hide Brought;
    Moved(t, op, e, ROLLING_BACK, n, d, r, COMPENSATION_PENDING);
    Moved(t, op, e, COMPENSATION_PENDING, n + 1, d, r, COMPENSATING);
    Moved(t, op, e, COMPENSATING, n + 2, d, r, RECOVERY_PENDING);
    Moved(t, op, e, RECOVERY_PENDING, n + 3, d, r, RECOVERING);
  }

  lemma {:induction false} LongRetries(t: Table, op: Uuid, e: Envelope, r: nat)
    requires Brought(t, op, e, CREATED, 0, 0, 0) && !e.IsUnset()
    ensures Brought(t, op, e, ROLLING_BACK, 6 + 7 * r, 0, r)
  {
    hide Brought;
    if r == 0 {
      Moved(t, op, e, CREATED, 0, 0, 0, DISPATCHED);
      ToRollback(t, op, e, DISPATCHED, 1, 0, 0);
    } else {
      var n := 7 * r - 1;
      LongRetries(t, op, e, r - 1);
      Moved(t, op, e, ROLLING_BACK, n, 0, r - 1, RETRY_PENDING);
      Moved(t, op, e, RETRY_PENDING, n + 1, 0, r - 1, RETRYING);
      ToRollback(t, op, e, RETRYING, n + 2, 0, r);
    }
  }

  lemma {:induction false} LongDispatches(t: Table, op: Uuid, e: Envelope, d: nat, r: nat)
    requires Brought(t, op, e, CREATED, 0, 0, 0) && !e.IsUnset()
    ensures Brought(t, op, e, RECOVERING, 10 + 7 * r + 10 * d, d, r)
  {
    hide Brought;
    if d == 0 {
      LongRetries(t, op, e, r);
      ToRecovering(t, op, e, 6 + 7 * r, 0, r);
    } else {
      var n := 7 * r + 10 * d;
      LongDispatches(t, op, e, d - 1, r);
      Redispatched(t, op, e, RECOVERING, n, d - 1, r);
      ToRollback(t, op, e, DISPATCHED, n + 1, d, r);
      ToRecovering(t, op, e, n + 6, d, r);
    }
  }

  /** The bound is met: for every R and D some run after the creation has exactly
      D dispatches, R retries and 11 + 7R + 10D calls answered OK. */
  lemma SuccessBoundAttained(t: Table, op: Uuid, e: Envelope, d: nat, r: nat)
    requires op !in t && !e.IsUnset()
    ensures var created := Step(t, Create(op, e)).0;
            exists cs :: Dispatches(created, cs, op) == d && RetriesTaken(created, cs, op) == r
                         && Successes(created, cs, op) == 11 + 7 * r + 10 * d
  {
    var created := Step(t, Create(op, e)).0;
    assert BroughtBy(created, [], op, e, CREATED, 0, 0, 0);
    LongDispatches(created, op, e, d, r);
    Moved(created, op, e, RECOVERING, 10 + 7 * r + 10 * d, d, r, RECOVERED);
    var cs :| BroughtBy(created, cs, op, e, RECOVERED, 11 + 7 * r + 10 * d, d, r);
  }

  // -------------------------------------------------------------- one winner

  /** Confirmations of op answered OK. */
  function Confirmations(t: Table, cs: seq<Call>, op: Uuid): nat
    decreases cs
  {
    if cs == [] then 0
    else (if cs[0].ConfirmCompletion? && cs[0].op == op && Step(t, cs[0]).1 == OK then 1 else 0)
         + Confirmations(Step(t, cs[0]).0, cs[1..], op)
  }

  lemma {:induction false} NoneAfterRecord(t: Table, cs: seq<Call>, op: Uuid)
    requires op in t && t[op].recorded
    ensures Confirmations(t, cs, op) == 0
    decreases cs
  {
    if cs != [] {
      StepFreezes(t, cs[0], op);
      NoneAfterRecord(Step(t, cs[0]).0, cs[1..], op);
    }
  }

  /** Whatever the calls and their order, at most one confirmation per operation succeeds. */
  lemma {:induction false} AtMostOneConfirmation(t: Table, cs: seq<Call>, op: Uuid)
    ensures Confirmations(t, cs, op) <= 1
    decreases cs
  {
    if cs != [] {
      var t' := Step(t, cs[0]).0;
      if op in t' && t'[op].recorded {
        NoneAfterRecord(t', cs[1..], op);
      } else {
        AtMostOneConfirmation(t', cs[1..], op);
      }
    }
  }
}

/** Any number of threads that each repeat "report the completion; if that was
    answered OK, confirm it" on one running operation, interleaved call by call. */
module Reporters {
  import opened Bytes
  import opened Ids
  import opened Authority
  import opened Operation
  import opened Registry

  /** Whether the thread is between its two calls, and the iterations it has left. */
  datatype Thread = Thread(confirming: bool, left: nat)

  datatype System = System(table: Table, threads: seq<Thread>, confirmed: nat)

  /** Thread i makes its next registry call. */
  function Tick(s: System, op: Uuid, env: Envelope, i: nat): System
    requires i < |s.threads|
  {
    var me := s.threads[i];
    if me.left == 0 then s
    else if me.confirming then
      var (t, result) := Step(s.table, ConfirmCompletion(op, env));
      System(t, s.threads[i := Thread(false, me.left - 1)], s.confirmed + if result == OK then 1 else 0)
    else
      var (t, result) := Step(s.table, ReportCompletion(op, env, false));
      System(t, s.threads[i := if result == OK then Thread(true, me.left) else Thread(false, me.left - 1)],
             s.confirmed)
  }

  /** The system after the scheduled threads have each made a call; a number that
      names no thread is skipped. */
  function Schedule(s: System, op: Uuid, env: Envelope, who: seq<nat>): System
    decreases who
  {
    if who == [] then s
    else Schedule(if who[0] < |s.threads| then Tick(s, op, env, who[0]) else s, op, env, who[1..])
  }

  predicate ReadyToReport(r: Runtime, env: Envelope) {
    r.state == RUNNING && r.authority == env && !env.IsUnset() && !r.recorded && r.terminal.IsUnset()
  }

  function Reported(r: Runtime): Runtime {
    r.(state := COMPLETION_REPORTED)
  }

  function Confirmed(r: Runtime, env: Envelope): Runtime {
    r.(state := COMPLETION_CONFIRMED, recorded := true, terminal := env, outcome := COMPLETED)
  }

  ghost predicate OnlyConfirming(threads: seq<Thread>, k: nat) {
    && k < |threads| && threads[k].confirming && threads[k].left > 0
    && forall j :: 0 <= j < |threads| && j != k ==> !threads[j].confirming
  }

  /** The three phases: nobody has reported, one thread holds the report, it is confirmed. */
  ghost predicate Phases(s: System, s0: System, op: Uuid, env: Envelope)
    requires op in s0.table
  {
    var r := s0.table[op];
    || s == s0
    || (&& s.table == s0.table[op := Reported(r)] && s.confirmed == s0.confirmed
        && exists k :: OnlyConfirming(s.threads, k))
    || (&& s.table == s0.table[op := Confirmed(r, env)] && s.confirmed == s0.confirmed + 1
        && forall j :: 0 <= j < |s.threads| ==> !s.threads[j].confirming)
  }

  ghost predicate Start(s: System, op: Uuid, env: Envelope) {
    && op in s.table && ReadyToReport(s.table[op], env) && s.confirmed == 0
    && forall j :: 0 <= j < |s.threads| ==> !s.threads[j].confirming
  }

  lemma ReadyAnswers(r: Runtime, op: Uuid, env: Envelope)
    requires ReadyToReport(r, env)
    ensures Apply(r, ReportCompletion(op, env, false)) == (Reported(r), OK)
    ensures Apply(Reported(r), ReportCompletion(op, env, false)) == (Reported(r), ALREADY_REPORTED)
    ensures Apply(Reported(r), ConfirmCompletion(op, env)) == (Confirmed(r, env), OK)
    ensures Apply(Confirmed(r, env), ReportCompletion(op, env, false)) == (Confirmed(r, env), ALREADY_TERMINAL)
  {
    CurrentIsAccepted(env);
  }

  lemma TickKeepsPhases(s: System, s0: System, op: Uuid, env: Envelope, i: nat)
    requires Start(s0, op, env) && Phases(s, s0, op, env) && i < |s.threads|
    ensures Phases(Tick(s, op, env, i), s0, op, env)
  {
    var r := s0.table[op];
    var me, s' := s.threads[i], Tick(s, op, env, i);
    ReadyAnswers(r, op, env);
    hide Apply;
    if me.left == 0 {
    } else if s == s0 {
      assert OnlyConfirming(s'.threads, i);
    } else if s.table == s0.table[op := Confirmed(r, env)] {
      assert s'.table == s.table;
    } else {
      var k :| OnlyConfirming(s.threads, k);
      if me.confirming {
        assert s'.table == s0.table[op := Confirmed(r, env)];
      } else {
        assert s'.table == s.table;
        assert OnlyConfirming(s'.threads, k);
      }
    }
  }

  lemma {:induction false} ScheduleKeepsPhases(s: System, s0: System, op: Uuid, env: Envelope, who: seq<nat>)
    requires Start(s0, op, env) && Phases(s, s0, op, env)
    ensures Phases(Schedule(s, op, env, who), s0, op, env)
    decreases who
  {
    if who != [] {
      var s' := s;
      if who[0] < |s.threads| {
        TickKeepsPhases(s, s0, op, env, who[0]);
        s' := Tick(s, op, env, who[0]);
      }
      ScheduleKeepsPhases(s', s0, op, env, who[1..]);
    }
  }

  /** Under every interleaving at most one confirmation succeeds, and once every
      thread has finished, at least one iteration having been asked for, exactly
      one has: the operation is confirmed and nothing else in the table moved. */
  lemma ExactlyOneWinner(s0: System, op: Uuid, env: Envelope, who: seq<nat>)
    requires Start(s0, op, env)
    ensures var s := Schedule(s0, op, env, who);
            && s.confirmed <= 1
            && ((forall j :: 0 <= j < |s.threads| ==> s.threads[j].left == 0)
                && (exists j :: 0 <= j < |s0.threads| && s0.threads[j].left > 0)
                ==> s.confirmed == 1 && s.table == s0.table[op := Confirmed(s0.table[op], env)])
  {
    ScheduleKeepsPhases(s0, s0, op, env, who);
  }
}

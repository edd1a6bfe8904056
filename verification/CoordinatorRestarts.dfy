/** The coordinator over restarts: which late messages a restart lets back in, and that
    the state file gives back what the protocol takes for granted. */
module CoordinatorRestarts {
  import opened Bytes
  import opened Ids
  import opened Authority
  import opened Operation
  import opened Registry
  import opened FailureRecords
  import opened Coordinator
  import Codec
  import Ownership
  import Snapshot
  import SnapshotPayloads
  import SnapshotLaws
  import Store

  // -------------------------------------------------- late messages after a restart

  /** The first registry call of a worker message. */
  predicate IsReport(c: Call, op: Uuid, env: Envelope) {
    && (c.Run? || (c.ReportCompletion? && !c.partial) || c.ReportFailure?)
    && c.op == op && c.env == env
  }

  lemma CurrentReport(r: Runtime, op: Uuid) returns (c: Call)
    requires !r.recorded && !r.authority.IsUnset() && r.terminal.IsUnset() && r.state <= COMPLETION_REPORTED
    ensures IsReport(c, op, r.authority) && Apply(r, c).1 == OK
  {
    CurrentIsAccepted(r.authority);
    c := ReportFailure(op, r.authority, true);
  }

  /** Nothing is accepted from a worker in any other state. */
  lemma NoReport(r: Runtime, c: Call, op: Uuid, env: Envelope)
    requires IsReport(c, op, env)
    requires r.recorded || r.state == FAILED_KNOWN || r.state == FAILED_AMBIGUOUS
    ensures Apply(r, c).1 != OK
  {
  }

  lemma KeptOperation(s: System, op: Uuid)
    requires Inv(s) && op in s.kept.table
    ensures var r := s.kept.table[op];
            && r.authority in s.issued && r.authority.attempt != NULL_ID
            && (r.recorded || r.terminal.IsUnset())
            && (r.state <= COMPLETION_REPORTED ==> !r.recorded)
            && (r.recorded || r.state <= COMPLETION_REPORTED || r.state == FAILED_KNOWN || r.state == FAILED_AMBIGUOUS)
  {
    hide LogInv;
    assert OperationInv(s.kept.table[op], s.issued, Lookup(s.kept.latest, op));
  }

  /** One attempt, one envelope. */
  lemma OtherAttempt(s: System, e: Envelope, f: Envelope)
    requires Inv(s) && e in s.issued && f in s.issued && e != f
    ensures e.attempt != f.attempt
  {
    hide LogInv, OperationInv;
  }

  /** Exactly which messages a restart lets in, late ones included: those under the
      authority that the last save held for an operation still under way. Any other
      message that was late stays late. */
  lemma RestartRevivesExactly(es: seq<Event>, op: Uuid, env: Envelope)
    requires IsRun(START, es) && env in Final(START, es).issued
    ensures var s := Final(START, es);
            (exists c :: IsReport(c, op, env) && Step(Restarted(s).table, c).1 == OK) <==>
              op in s.kept.table && s.kept.table[op].authority == env && s.kept.table[op].state <= COMPLETION_REPORTED
  {
    hide IsRun, Final, Inv, Apply, IsReport;
    StartInv();
    RunKeeps(START, es);
    var s := Final(START, es);
    assert Restarted(s).table == s.kept.table;
    if op in s.kept.table {
      var r := s.kept.table[op];
      KeptOperation(s, op);
      if r.authority == env && r.state <= COMPLETION_REPORTED {
        var c := CurrentReport(r, op);
        ReportNames(c, op, env);
        assert Step(s.kept.table, c).1 == OK;
      }
      forall c | IsReport(c, op, env) && Step(s.kept.table, c).1 == OK
        ensures r.authority == env && r.state <= COMPLETION_REPORTED
      {
        ReportNames(c, op, env);
        if r.authority != env {
          OtherAttempt(s, env, r.authority);
          LateCallRejected(r, c);
        } else if r.state > COMPLETION_REPORTED {
          NoReport(r, c, op, env);
        }
      }
    } else {
      forall c | IsReport(c, op, env) ensures Step(s.kept.table, c).1 != OK {
        ReportNames(c, op, env);
      }
    }
  }

  lemma ReportNames(c: Call, op: Uuid, env: Envelope)
    requires IsReport(c, op, env)
    ensures c.op == op && c.env == env && (c.Run? || c.ReportCompletion? || c.ReportFailure?)
  {
  }

  // ------------------------------------------------------- what has been saved stays

  /** A crash right after a save puts back the table, the dispatches and the log as they
      were saved, or nothing if the save was torn; nobody owns recovery and no handler
      is left, but the envelopes issued are out in the world. */
  lemma CrashAfterSave(s: System, task: Task, whole: bool)
    requires Enabled(s, Save(task, whole))
    ensures var t := After(After(s, Save(task, whole)), Crash);
            && t.table == (if whole then s.table else map[])
            && t.latest == (if whole then s.latest else map[])
            && t.log == (if whole then s.log else map[])
            && t.own.owner == 8 && t.own.generation == 0 && t.own.boot == NULL_ID
            && t.tasks == multiset{}
            && t.issued == s.issued && t.wins == s.wins
  {
  }

  /** op stands in the table and in the file with exactly this outcome. */
  predicate SavedAs(s: System, op: Uuid, r: Runtime) {
    op in s.kept.table && s.kept.table[op] == r && op in s.table && s.table[op] == r
  }

  lemma SavedStep(s: System, e: Event, op: Uuid, r: Runtime)
    requires Enabled(s, e) && SavedAs(s, op, r) && r.recorded && (e.Save? ==> e.whole)
    ensures SavedAs(After(s, e), op, r)
  {
    hide After, Enabled;
    if e.Crash? {
      CrashRestarts(s);
    } else {
      OutcomesKept(s, e);
      Frame(s, e);
    }
  }

  lemma {:induction false} SavedRun(s: System, es: seq<Event>, op: Uuid, r: Runtime)
    requires IsRun(s, es) && SavedAs(s, op, r) && r.recorded
    requires forall i :: 0 <= i < |es| && es[i].Save? ==> es[i].whole
    ensures SavedAs(Final(s, es), op, r)
    decreases es
  {
    hide After, Enabled, SavedAs;
    if es != [] {
      SavedStep(s, es[0], op, r);
      SavedRun(After(s, es[0]), es[1..], op, r);
    }
  }

  /** An outcome that has been saved is safe: whatever happens after, crashes included,
      as long as no save is torn the operation stays confirmed with that very record,
      and no other confirmation of it ever succeeds. */
  lemma SavedOutcomeSurvives(es: seq<Event>, more: seq<Event>, op: Uuid)
    requires IsRun(START, es) && IsRun(Final(START, es), more)
    requires IsRecorded(Final(START, es).kept.table, op)
    requires forall i :: 0 <= i < |more| && more[i].Save? ==> more[i].whole
    ensures var s, t := Final(START, es), Final(Final(START, es), more);
            && op in t.table && t.table[op] == s.kept.table[op]
            && Wins(t, op) == Wins(s, op)
  {
    hide IsRun, Final, Enabled, After, Inv, Wins, Losses;
    StartInv();
    RunKeeps(START, es);
    var s := Final(START, es);
    KeptIsLive(s, op);
    SavedRun(s, more, op, s.kept.table[op]);
    RunKeeps(s, more);
    CountsAgree(s, op);
    CountsAgree(Final(s, more), op);
    SavedNotForgotten(s, more, op, s.kept.table[op]);
    LossesCounted(s, more, op);
  }

  lemma KeptIsLive(s: System, op: Uuid)
    requires Inv(s) && IsRecorded(s.kept.table, op)
    ensures SavedAs(s, op, s.kept.table[op])
  {
    hide TableInv, TaskInv, LogInv, OperationInv;
  }

  lemma CountsAgree(s: System, op: Uuid)
    requires Inv(s)
    ensures Wins(s, op) == Losses(s, op) + if IsRecorded(s.table, op) then 1 else 0
  {
    hide LogInv, KeptInv, TaskInv;
    WinsAreCounted(s, op);
  }

  lemma {:induction false} SavedNotForgotten(s: System, es: seq<Event>, op: Uuid, r: Runtime)
    requires IsRun(s, es) && SavedAs(s, op, r) && r.recorded
    requires forall i :: 0 <= i < |es| && es[i].Save? ==> es[i].whole
    ensures Forgotten(s, es, op) == 0
    decreases es
  {
    hide After, Enabled;
    if es != [] {
      SavedStep(s, es[0], op, r);
      SavedNotForgotten(After(s, es[0]), es[1..], op, r);
    }
  }

  // -------------------------------------------------------- what the file gives back

  /** The coordinator's store; it never uses the idempotency table. */
  function StoreOf(s: System): Snapshot.StoreValue {
    Snapshot.StoreValue(s.log, s.table, map[], s.own)
  }

  /** No attempt generation has wrapped to zero. */
  ghost predicate NoneWrapped(s: System) {
    forall e :: e in s.issued ==> Codec.ValidAuthority(e)
  }

  lemma LossRecordFits(op: Uuid, env: Envelope, id: Uuid, timestamp: u64)
    ensures var r := LossRecord(op, env, id, timestamp);
            && |r.dependencies| == 0 && SnapshotLaws.ShortRecord(r)
            && |RecordBytes(r)| < 0x1_0000_0000
  {
    hide RecordBytes;
    RecordSize(LossRecord(op, env, id, timestamp));
  }

  lemma LogFits(log: Snapshot.FailureLog, id: Uuid)
    requires LogInv(log) && id in log
    ensures Decodable(log[id]) && SnapshotLaws.ShortRecord(log[id]) && log[id].ids.failureId == id
    ensures |RecordBytes(log[id])| < 0x1_0000_0000
  {
    hide RecordBytes, LossRecord, SnapshotLaws.ShortRecord, Codec.ValidAuthority;
    var op, env, t :| log[id] == LossRecord(op, env, id, t);
    LossRecordFits(op, env, id, t);
  }

  lemma TableFits(s: System, op: Uuid)
    requires TableInv(s) && NoneWrapped(s) && op in s.table
    ensures SnapshotPayloads.ValidRuntime(s.table[op]) && |s.table[op].outcome| <= 0xFFFF
  {
    hide Codec.ValidAuthority;
    assert OperationInv(s.table[op], s.issued, Last(s, op));
    UnsetIsValid();
  }

  lemma UnsetIsValid()
    ensures Codec.ValidAuthority(UNSET)
  {
  }

  /** The whole save of the protocol is the snapshot: in every reachable state whose
      attempt generations have not wrapped, saving and loading gives back exactly the
      table and the log that a restart goes on with, in whatever iteration orders. */
  lemma StateFileComesBack(es: seq<Event>, o: Snapshot.Orders)
    requires IsRun(START, es) && NoneWrapped(Final(START, es))
    requires var v := StoreOf(Final(START, es));
             |v.failures| < 0x1_0000_0000 && |v.ops| < 0x1_0000_0000 && Snapshot.Enumerates(o, v)
    ensures var s := Final(START, es);
            Snapshot.LoadBytes(Snapshot.SnapshotBytes(StoreOf(s), o), Ownership.UNASSIGNED)
            == Snapshot.Loaded(s.log, s.table, map[])
  {
    hide *;
    StartInv();
    RunKeeps(START, es);
    StateFits(Final(START, es));
    FileComesBack(Final(START, es), o);
  }

  lemma StateFits(s: System)
    requires Inv(s) && NoneWrapped(s)
    requires |StoreOf(s).failures| < 0x1_0000_0000 && |StoreOf(s).ops| < 0x1_0000_0000
    ensures var v := StoreOf(s);
            SnapshotLaws.Storable(v) && SnapshotLaws.Loadable(v) && SnapshotLaws.ShortTexts(v)
  {
    hide RecordBytes, LogInv, TableInv, NoneWrapped, Decodable, SnapshotLaws.ShortRecord, SnapshotPayloads.ValidRuntime;
    forall k | k in s.log
      ensures Decodable(s.log[k]) && SnapshotLaws.ShortRecord(s.log[k]) && s.log[k].ids.failureId == k
      ensures |RecordBytes(s.log[k])| < 0x1_0000_0000
    {
      LogFits(s.log, k);
    }
    forall k | k in s.table
      ensures SnapshotPayloads.ValidRuntime(s.table[k]) && |s.table[k].outcome| <= 0xFFFF
    {
      TableFits(s, k);
    }
  }

  lemma FileComesBack(s: System, o: Snapshot.Orders)
    requires var v := StoreOf(s);
             && Snapshot.Enumerates(o, v)
             && SnapshotLaws.Storable(v) && SnapshotLaws.Loadable(v) && SnapshotLaws.ShortTexts(v)
    ensures Snapshot.LoadBytes(Snapshot.SnapshotBytes(StoreOf(s), o), Ownership.UNASSIGNED)
            == Snapshot.Loaded(s.log, s.table, map[])
  {
    hide Snapshot.LoadBytes, Snapshot.SnapshotBytes, SnapshotLaws.Storable, SnapshotLaws.Loadable;
    hide SnapshotLaws.ShortTexts, Snapshot.Enumerates, Snapshot.Lists;
    SnapshotLaws.ReloadIsExact(StoreOf(s), o, Ownership.UNASSIGNED);
    var r := Snapshot.LoadBytes(Snapshot.SnapshotBytes(StoreOf(s), o), Ownership.UNASSIGNED);
    assert r.idem.Keys == {};
  }
}

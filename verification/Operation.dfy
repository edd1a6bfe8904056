/** The guarded operation state machine: transition table, terminal states and
    a bound on the length of its runs. */
module Operation {
  import opened Bytes

  /** OperationState as stored: any 32-bit value can be read back from a snapshot. */
  type State = u32

  const CREATED: State := 0
  const DISPATCHED: State := 1
  const RUNNING: State := 2
  const COMPLETION_REPORTED: State := 3
  const COMPLETION_CONFIRMED: State := 4
  const FAILED_KNOWN: State := 5
  const FAILED_AMBIGUOUS: State := 6
  const PARTIALLY_SUCCEEDED: State := 7
  const RETRY_PENDING: State := 8
  const RETRYING: State := 9
  const ROLLBACK_PENDING: State := 10
  const ROLLING_BACK: State := 11
  const COMPENSATION_PENDING: State := 12
  const COMPENSATING: State := 13
  const RECOVERY_PENDING: State := 14
  const RECOVERING: State := 15
  const RECOVERED: State := 16
  const TERMINAL_FAILED: State := 17
  const CANCELLED: State := 18
  const ABANDONED: State := 19

  /** The rows of the transition table. */
  function Successors(s: State): seq<nat> {
    match s
    case 0 => [1, 5, 6]
    case 1 => [2, 5, 6, 18]
    case 2 => [3, 5, 6, 7, 18]
    case 3 => [4, 5, 6, 7]
    case 5 => [8, 10, 12, 14, 17, 18, 19]
    case 6 => [8, 10, 12, 14, 17, 19]
    case 7 => [8, 10, 12, 14, 17]
    case 8 => [9, 18, 19]
    case 9 => [2, 5, 6, 18]
    case 10 => [11, 18, 19]
    case 11 => [8, 12, 14, 16, 17]
    case 12 => [13, 18, 19]
    case 13 => [14, 16, 17]
    case 14 => [15, 17, 19]
    case 15 => [16, 17, 18]
    case _ => []
  }

  predicate Allowed(from: State, to: State) {
    match from
    case 0 => to == 1 || to == 5 || to == 6
    case 1 => to == 2 || to == 5 || to == 6 || to == 18
    case 2 => to == 3 || to == 5 || to == 6 || to == 7 || to == 18
    case 3 => to == 4 || to == 5 || to == 6 || to == 7
    case 5 => to == 8 || to == 10 || to == 12 || to == 14 || to == 17 || to == 18 || to == 19
    case 6 => to == 8 || to == 10 || to == 12 || to == 14 || to == 17 || to == 19
    case 7 => to == 8 || to == 10 || to == 12 || to == 14 || to == 17
    case 8 => to == 9 || to == 18 || to == 19
    case 9 => to == 2 || to == 5 || to == 6 || to == 18
    case 10 => to == 11 || to == 18 || to == 19
    case 11 => to == 8 || to == 12 || to == 14 || to == 16 || to == 17
    case 12 => to == 13 || to == 18 || to == 19
    case 13 => to == 14 || to == 16 || to == 17
    case 14 => to == 15 || to == 17 || to == 19
    case 15 => to == 16 || to == 17 || to == 18
    case _ => false
  }

  lemma AllowedIsListed(from: State, to: State)
    ensures Allowed(from, to) <==> to in Successors(from)
  {
  }

  /** Where a state can be entered from: the table read by its columns. */
  function Predecessors(t: State): seq<State> {
    if t == DISPATCHED then [CREATED]
    else if t == RUNNING then [DISPATCHED, RETRYING]
    else if t == COMPLETION_REPORTED then [RUNNING]
    else if t == COMPLETION_CONFIRMED then [COMPLETION_REPORTED]
    else if t == FAILED_KNOWN || t == FAILED_AMBIGUOUS
      then [CREATED, DISPATCHED, RUNNING, COMPLETION_REPORTED, RETRYING]
    else if t == PARTIALLY_SUCCEEDED then [RUNNING, COMPLETION_REPORTED]
    else if t == RETRY_PENDING then [FAILED_KNOWN, FAILED_AMBIGUOUS, PARTIALLY_SUCCEEDED, ROLLING_BACK]
    else if t == RETRYING then [RETRY_PENDING]
    else if t == ROLLBACK_PENDING then [FAILED_KNOWN, FAILED_AMBIGUOUS, PARTIALLY_SUCCEEDED]
    else if t == ROLLING_BACK then [ROLLBACK_PENDING]
    else if t == COMPENSATION_PENDING then [FAILED_KNOWN, FAILED_AMBIGUOUS, PARTIALLY_SUCCEEDED, ROLLING_BACK]
    else if t == COMPENSATING then [COMPENSATION_PENDING]
    else if t == RECOVERY_PENDING
      then [FAILED_KNOWN, FAILED_AMBIGUOUS, PARTIALLY_SUCCEEDED, ROLLING_BACK, COMPENSATING]
    else if t == RECOVERING then [RECOVERY_PENDING]
    else if t == RECOVERED then [ROLLING_BACK, COMPENSATING, RECOVERING]
    else if t == TERMINAL_FAILED
      then [FAILED_KNOWN, FAILED_AMBIGUOUS, PARTIALLY_SUCCEEDED, ROLLING_BACK, COMPENSATING, RECOVERY_PENDING, RECOVERING]
    else if t == CANCELLED
      then [DISPATCHED, RUNNING, FAILED_KNOWN, RETRY_PENDING, RETRYING, ROLLBACK_PENDING, COMPENSATION_PENDING, RECOVERING]
    else if t == ABANDONED
      then [FAILED_KNOWN, FAILED_AMBIGUOUS, RETRY_PENDING, ROLLBACK_PENDING, COMPENSATION_PENDING, RECOVERY_PENDING]
    else []
  }

  /** The rows and the columns are one relation: what can be confirmed, cancelled,
      abandoned, failed and so on, and from where. */
  lemma EnteredFromExactly(s: State, t: State)
    ensures Allowed(s, t) <==> s in Predecessors(t)
  {
  }

  predicate IsTerminal(s: State) {
    s == COMPLETION_CONFIRMED || s == RECOVERED || s == TERMINAL_FAILED || s == CANCELLED || s == ABANDONED
  }

  // ------------------------------------------------------- the table as bit masks

  predicate Bit(m: nat, i: nat) {
    if i == 0 then m % 2 == 1 else Bit(m / 2, i - 1)
  }

  /** m | (1 << i) */
  function WithBit(m: nat, i: nat): nat {
    if i == 0 then (if m % 2 == 1 then m else m + 1) else 2 * WithBit(m / 2, i - 1) + m % 2
  }

  lemma {:induction false} WithBitSets(m: nat, i: nat, j: nat)
    ensures Bit(WithBit(m, i), j) == (i == j || Bit(m, j))
  {
    if i > 0 && j > 0 {
      WithBitSets(m / 2, i - 1, j - 1);
    }
  }

  lemma {:induction false} ZeroBits(j: nat)
    ensures !Bit(0, j)
  {
    if j > 0 {
      ZeroBits(j - 1);
    }
  }

  /** make_mask: bit i is set exactly for the listed indices. */
  method MakeMask(idx: seq<nat>) returns (m: nat)
    ensures forall j: nat :: Bit(m, j) == (j in idx)
  {
    m := 0;
    forall j: nat ensures !Bit(0, j) {
      ZeroBits(j);
    }
    for k := 0 to |idx|
      invariant forall j: nat :: Bit(m, j) == (j in idx[..k])
    {
      forall j: nat ensures Bit(WithBit(m, idx[k]), j) == (j in idx[..k + 1]) {
        WithBitSets(m, idx[k], j);
        assert idx[..k + 1] == idx[..k] + [idx[k]];
      }
      m := WithBit(m, idx[k]);
    }
    assert idx[..|idx|] == idx;
  }

  /** is_allowed, which guards both indices and then tests one mask bit. */
  method IsAllowed(from: State, to: State) returns (ok: bool)
    ensures ok == Allowed(from, to)
  {
    if from >= 20 || to >= 20 {
      return false;
    }
    AllowedIsListed(from, to);
    var mask := MakeMask(Successors(from));
    ok := Bit(mask, to);
  }

  /** A terminal state, and only one, has no way out among the twenty. */
  lemma TerminalIsFinal(s: State)
    requires s < 20
    ensures IsTerminal(s) <==> forall t: State :: !Allowed(s, t)
  {
    if !IsTerminal(s) {
      AllowedIsListed(s, Successors(s)[0]);
    }
  }

  class OperationStateMachine {
    var state: State

    constructor (s: State)
      ensures state == s
    {
      state := s;
    }

    method Transition(to: State) returns (ok: bool)
      modifies this
      ensures ok == Allowed(old(state), to)
      ensures state == if ok then to else old(state)
    {
      ok := IsAllowed(state, to);
      if ok {
        state := to;
      }
    }

    method Reset(s: State)
      modifies this
      ensures state == s
    {
      state := s;
    }
  }

  // -------------------------------------------------------------- run length

  ghost predicate IsPath(path: seq<State>) {
    |path| > 0 && forall i :: 0 <= i < |path| - 1 ==> Allowed(path[i], path[i + 1])
  }

  function IsRetry(from: State, to: State): nat {
    if from == RETRY_PENDING && to == RETRYING then 1 else 0
  }

  /** How often the run takes the edge from RETRY_PENDING to RETRYING. */
  function Retries(path: seq<State>): nat {
    if |path| < 2 then 0
    else Retries(path[..|path| - 1]) + IsRetry(path[|path| - 2], path[|path| - 1])
  }

  /** Steps still possible without another retry, charging seven for each retry. */
  function Potential(s: State): nat {
    match s
    case 0 => 11
    case 1 => 10
    case 2 => 9
    case 3 => 8
    case 5 => 7
    case 6 => 7
    case 7 => 7
    case 8 => 4
    case 9 => 10
    case 10 => 6
    case 11 => 5
    case 12 => 4
    case 13 => 3
    case 14 => 2
    case 15 => 1
    case _ => 0
  }

  lemma PotentialDrops(from: State, to: State)
    requires Allowed(from, to)
    ensures Potential(to) + 1 <= Potential(from) + 7 * IsRetry(from, to)
  {
  }

  lemma {:induction false} RunPotential(path: seq<State>)
    requires IsPath(path)
    ensures |path| - 1 + Potential(path[|path| - 1]) <= Potential(path[0]) + 7 * Retries(path)
  {
    var n := |path| - 1;
    if n > 0 {
      RunPotential(path[..n]);
      assert Allowed(path[n - 1], path[n - 1 + 1]);
      PotentialDrops(path[n - 1], path[n]);
    }
  }

  /** A run from CREATED with R retries has at most 7R + 11 steps. */
  lemma RunLengthBound(path: seq<State>)
    requires IsPath(path) && path[0] == CREATED
    ensures |path| - 1 <= 7 * Retries(path) + 11
  {
    RunPotential(path);
  }

  /** Some run from CREATED takes that many steps and retries to get to s. */
  ghost predicate Reached(s: State, steps: nat, retries: nat) {
    exists path :: IsPath(path) && path[0] == CREATED && path[|path| - 1] == s
                   && |path| == steps + 1 && Retries(path) == retries
  }

  lemma Extend(s: State, steps: nat, retries: nat, t: State)
    requires Reached(s, steps, retries) && Allowed(s, t)
    ensures Reached(t, steps + 1, retries + IsRetry(s, t))
  {
    var path :| IsPath(path) && path[0] == CREATED && path[|path| - 1] == s
                && |path| == steps + 1 && Retries(path) == retries;
    var longer := path + [t];
    assert longer[..|path|] == path;
    assert IsPath(longer);
  }

  /** The longest way from RUNNING to ROLLING_BACK. */
  lemma RunToRollback(steps: nat, retries: nat)
    requires Reached(RUNNING, steps, retries)
    ensures Reached(ROLLING_BACK, steps + 4, retries)
  {
    Extend(RUNNING, steps, retries, COMPLETION_REPORTED);
    Extend(COMPLETION_REPORTED, steps + 1, retries, FAILED_KNOWN);
    Extend(FAILED_KNOWN, steps + 2, retries, ROLLBACK_PENDING);
    Extend(ROLLBACK_PENDING, steps + 3, retries, ROLLING_BACK);
  }

  lemma {:induction false} LongestLead(retries: nat)
    ensures Reached(ROLLING_BACK, 7 * retries + 6, retries)
  {
    if retries == 0 {
      assert IsPath([CREATED]) && Retries([CREATED]) == 0;
      Extend(CREATED, 0, 0, DISPATCHED);
      Extend(DISPATCHED, 1, 0, RUNNING);
      RunToRollback(2, 0);
    } else {
      var n, r := 7 * retries - 1, retries - 1;
      LongestLead(r);
      Extend(ROLLING_BACK, n, r, RETRY_PENDING);
      Extend(RETRY_PENDING, n + 1, r, RETRYING);
      Extend(RETRYING, n + 2, r + 1, RUNNING);
      RunToRollback(n + 3, r + 1);
    }
  }

  /** The bound is met: for every number of retries some run takes all 7R + 11 steps. */
  lemma RunLengthAttained(retries: nat)
    ensures exists path :: IsPath(path) && path[0] == CREATED
                           && Retries(path) == retries && |path| - 1 == 7 * retries + 11
  {
    var n := 7 * retries + 6;
    LongestLead(retries);
    Extend(ROLLING_BACK, n, retries, COMPENSATION_PENDING);
    Extend(COMPENSATION_PENDING, n + 1, retries, COMPENSATING);
    Extend(COMPENSATING, n + 2, retries, RECOVERY_PENDING);
    Extend(RECOVERY_PENDING, n + 3, retries, RECOVERING);
    Extend(RECOVERING, n + 4, retries, RECOVERED);
  }
}

/** The authority envelope and the three fences that compare one envelope
    with the current one, dimension by dimension. */
module Authority {
  import opened Bytes
  import opened Ids

  datatype Envelope = Envelope(
    epoch: u64, boot: Uuid, attempt: Uuid, dispatch: Uuid,
    attemptGen: u64, operationGen: u64, failureGen: u64, recoveryGen: u64)
  {
    predicate IsUnset() {
      this == UNSET
    }

    /** Same work on a fresh worker incarnation. */
    function NextBoot(newBoot: Uuid): Envelope {
      this.(boot := newBoot, attemptGen := Next(attemptGen), operationGen := Next(operationGen),
        failureGen := Next(failureGen), recoveryGen := Next(recoveryGen))
    }

    /** The coordinator's re-dispatch: a fresh attempt id, the boot kept. */
    function NewAttempt(newAttempt: Uuid): Envelope {
      this.(attempt := newAttempt, attemptGen := Next(attemptGen), operationGen := Next(operationGen),
        failureGen := Next(failureGen), recoveryGen := Next(recoveryGen))
    }
  }

  const UNSET := Envelope(0, NULL_ID, NULL_ID, NULL_ID, 0, 0, 0, 0)

  datatype FenceReason =
    | Accepted | Unknown | EpochStale | BootStale | AttemptMismatch | DispatchMismatch
    | AttemptGenerationStale | OperationGenerationStale | RecoveryGenerationStale

  function FenceCompletion(c: Envelope, cur: Envelope, terminal: Envelope): FenceReason {
    if c.IsUnset() then Unknown
    else if cur.epoch != 0 && c.epoch < cur.epoch then EpochStale
    else if cur.attempt != NULL_ID && c.attempt != cur.attempt then AttemptMismatch
    else if cur.dispatch != NULL_ID && c.dispatch != cur.dispatch then DispatchMismatch
    else if cur.boot != NULL_ID && c.boot != cur.boot then BootStale
    else if cur.attemptGen != 0 && c.attemptGen < cur.attemptGen then AttemptGenerationStale
    else if cur.operationGen != 0 && c.operationGen < cur.operationGen then OperationGenerationStale
    else if !terminal.IsUnset() && c.attemptGen <= terminal.attemptGen && c.operationGen <= terminal.operationGen
      then AttemptGenerationStale
    else Accepted
  }

  function FenceFailure(c: Envelope, cur: Envelope): FenceReason {
    if c.IsUnset() then Unknown
    else if cur.epoch != 0 && c.epoch < cur.epoch then EpochStale
    else if cur.attempt != NULL_ID && c.attempt != cur.attempt then AttemptMismatch
    else if cur.attemptGen != 0 && c.attemptGen < cur.attemptGen then AttemptGenerationStale
    else if cur.boot != NULL_ID && c.boot != NULL_ID && c.boot != cur.boot && c.attemptGen <= cur.attemptGen
      then BootStale
    else Accepted
  }

  function FenceRecovery(c: Envelope, cur: Envelope, currentRecovery: u64): FenceReason {
    if c.IsUnset() then Unknown
    else if cur.epoch != 0 && c.epoch < cur.epoch then EpochStale
    else if c.recoveryGen <= currentRecovery then RecoveryGenerationStale
    else if cur.attempt != NULL_ID && c.attempt != cur.attempt then AttemptMismatch
    else Accepted
  }

  // ----------------------------------------------- chains of derived envelopes

  datatype Derivation = ByBoot(boot: Uuid) | ByAttempt(attempt: Uuid)

  function Derive(e: Envelope, d: Derivation): Envelope {
    match d
    case ByBoot(boot) => e.NextBoot(boot)
    case ByAttempt(attempt) => e.NewAttempt(attempt)
  }

  /** The envelope reached from e by the derivations in order. */
  function Chain(e: Envelope, ds: seq<Derivation>): Envelope {
    if ds == [] then e else Derive(Chain(e, ds[..|ds| - 1]), ds[|ds| - 1])
  }

  /** The generation n steps on. */
  function Advanced(g: u64, n: nat): u64 {
    (g + n) % MODULUS
  }

  lemma AdvanceOne(g: u64, n: nat)
    ensures Next(Advanced(g, n)) == Advanced(g, n + 1)
  {
  }

  lemma AdvanceWithin(g: u64, n: nat)
    ensures g + n < MODULUS ==> Advanced(g, n) == g + n
    ensures g + n == MODULUS ==> Advanced(g, n) == 0
  {
  }

  lemma DeriveGenerations(e: Envelope, d: Derivation)
    ensures Derive(e, d).attemptGen == Next(e.attemptGen) && Derive(e, d).operationGen == Next(e.operationGen)
    ensures Derive(e, d).failureGen == Next(e.failureGen) && Derive(e, d).recoveryGen == Next(e.recoveryGen)
  {
  }

  /** n derivations add n to the generations, in 64 bits. */
  lemma {:induction false} ChainGenerations(e: Envelope, ds: seq<Derivation>)
    ensures Chain(e, ds).attemptGen == Advanced(e.attemptGen, |ds|)
    ensures Chain(e, ds).operationGen == Advanced(e.operationGen, |ds|)
    ensures Chain(e, ds).failureGen == Advanced(e.failureGen, |ds|)
    ensures Chain(e, ds).recoveryGen == Advanced(e.recoveryGen, |ds|)
  {
    hide Derive, Next, Advanced;
    if ds == [] {
      AdvanceWithin(e.attemptGen, 0);
      AdvanceWithin(e.operationGen, 0);
      AdvanceWithin(e.failureGen, 0);
      AdvanceWithin(e.recoveryGen, 0);
    } else {
      var n := |ds| - 1;
      ChainGenerations(e, ds[..n]);
      DeriveGenerations(Chain(e, ds[..n]), ds[n]);
      AdvanceOne(e.attemptGen, n);
      AdvanceOne(e.operationGen, n);
      AdvanceOne(e.failureGen, n);
      AdvanceOne(e.recoveryGen, n);
    }
  }

  /** The epoch and the dispatch stay; the boot is the last one derived, and so is the attempt. */
  lemma {:induction false} ChainNames(e: Envelope, ds: seq<Derivation>)
    ensures Chain(e, ds).epoch == e.epoch && Chain(e, ds).dispatch == e.dispatch
    ensures ds != [] && ds[|ds| - 1].ByBoot? ==> Chain(e, ds).boot == ds[|ds| - 1].boot
    ensures ds != [] && ds[|ds| - 1].ByAttempt? ==> Chain(e, ds).attempt == ds[|ds| - 1].attempt
    ensures (forall i :: 0 <= i < |ds| ==> !ds[i].ByBoot?) ==> Chain(e, ds).boot == e.boot
    ensures (forall i :: 0 <= i < |ds| ==> !ds[i].ByAttempt?) ==> Chain(e, ds).attempt == e.attempt
  {
    if ds != [] {
      ChainNames(e, ds[..|ds| - 1]);
    }
  }

  /** Superseded, dimension by dimension: nothing is named at all, the coordinator's
      epoch is an older one, another attempt is meant, or an older generation of it. */
  predicate Superseded(c: Envelope, cur: Envelope) {
    || (c.epoch == 0 && c.boot == NULL_ID && c.attempt == NULL_ID && c.dispatch == NULL_ID
        && c.attemptGen == 0 && c.operationGen == 0 && c.failureGen == 0 && c.recoveryGen == 0)
    || c.epoch < cur.epoch
    || (cur.attempt != NULL_ID && c.attempt != cur.attempt)
    || c.attemptGen < cur.attemptGen
  }

  /** A failure is believed exactly if it is not superseded and does not come from
      another boot within the current attempt generation. */
  lemma FailureBelievedExactly(c: Envelope, cur: Envelope)
    ensures FenceFailure(c, cur) == Accepted <==>
              && !Superseded(c, cur)
              && (cur.boot == NULL_ID || c.boot == NULL_ID || c.boot == cur.boot || cur.attemptGen < c.attemptGen)
  {
  }

  /** A completion is believed exactly if it is not superseded, names the current
      dispatch and boot, and is newer than any outcome on record. */
  lemma CompletionBelievedExactly(c: Envelope, cur: Envelope, terminal: Envelope)
    ensures FenceCompletion(c, cur, terminal) == Accepted <==>
              && !Superseded(c, cur)
              && (cur.dispatch == NULL_ID || c.dispatch == cur.dispatch)
              && (cur.boot == NULL_ID || c.boot == cur.boot)
              && cur.operationGen <= c.operationGen
              && (terminal == UNSET || terminal.attemptGen < c.attemptGen || terminal.operationGen < c.operationGen)
  {
  }

  /** A recovery command is obeyed exactly if its recovery generation is strictly newer,
      its epoch is not older and it means the current attempt. */
  lemma RecoveryObeyedExactly(c: Envelope, cur: Envelope, currentRecovery: u64)
    ensures FenceRecovery(c, cur, currentRecovery) == Accepted <==>
              && currentRecovery < c.recoveryGen && cur.epoch <= c.epoch
              && (cur.attempt == NULL_ID || c.attempt == cur.attempt)
  {
  }

  /** What a reason given for a rejection says about the two envelopes. */
  predicate ReasonHolds(why: FenceReason, c: Envelope, cur: Envelope, terminal: Envelope, currentRecovery: u64) {
    match why
    case Accepted => c != UNSET
    case Unknown => c == UNSET
    case EpochStale => c.epoch < cur.epoch
    case BootStale => c.boot != cur.boot && cur.boot != NULL_ID
    case AttemptMismatch => c.attempt != cur.attempt && cur.attempt != NULL_ID
    case DispatchMismatch => c.dispatch != cur.dispatch && cur.dispatch != NULL_ID
    case AttemptGenerationStale =>
      c.attemptGen < cur.attemptGen
      || (terminal != UNSET && c.attemptGen <= terminal.attemptGen && c.operationGen <= terminal.operationGen)
    case OperationGenerationStale => c.operationGen < cur.operationGen
    case RecoveryGenerationStale => c.recoveryGen <= currentRecovery
  }

  /** Every reason a fence gives is true. */
  lemma ReasonsAreTrue(c: Envelope, cur: Envelope, terminal: Envelope, currentRecovery: u64)
    ensures ReasonHolds(FenceCompletion(c, cur, terminal), c, cur, terminal, currentRecovery)
    ensures ReasonHolds(FenceFailure(c, cur), c, cur, UNSET, currentRecovery)
    ensures ReasonHolds(FenceRecovery(c, cur, currentRecovery), c, cur, UNSET, currentRecovery)
  {
  }

  /** An envelope with an older attempt generation is turned away by every fence. */
  lemma OlderIsRejected(c: Envelope, cur: Envelope, terminal: Envelope)
    requires c.attemptGen < cur.attemptGen && c.recoveryGen < cur.recoveryGen
    ensures FenceCompletion(c, cur, terminal) != Accepted
    ensures FenceFailure(c, cur) != Accepted
    ensures FenceRecovery(c, cur, cur.recoveryGen) != Accepted
  {
  }

  /** None of the fences accepts c against cur. */
  predicate RejectedByAll(c: Envelope, cur: Envelope, terminal: Envelope) {
    && FenceCompletion(c, cur, terminal) != Accepted
    && FenceFailure(c, cur) != Accepted
    && FenceRecovery(c, cur, cur.recoveryGen) != Accepted
  }

  /** Stale authority never revives: along one chain whose generations do not wrap, no
      fence accepts an earlier envelope against a later one, whatever is on record. */
  lemma StaleNeverRevives(e: Envelope, ds: seq<Derivation>, i: nat, j: nat, terminal: Envelope)
    requires i < j <= |ds|
    requires e.attemptGen + |ds| < MODULUS && e.recoveryGen + |ds| < MODULUS
    ensures RejectedByAll(Chain(e, ds[..i]), Chain(e, ds[..j]), terminal)
  {
    hide FenceCompletion, FenceFailure, FenceRecovery, Chain, Advanced;
    ChainGenerations(e, ds[..i]);
    ChainGenerations(e, ds[..j]);
    AdvanceWithin(e.attemptGen, i);
    AdvanceWithin(e.attemptGen, j);
    AdvanceWithin(e.recoveryGen, i);
    AdvanceWithin(e.recoveryGen, j);
    OlderIsRejected(Chain(e, ds[..i]), Chain(e, ds[..j]), terminal);
  }

  /** Boots only, as a worker's restarts derive them. */
  predicate AllBoots(ds: seq<Derivation>) {
    forall i :: 0 <= i < |ds| ==> ds[i].ByBoot?
  }

  lemma {:induction false} BootChainKeeps(e: Envelope, ds: seq<Derivation>)
    requires AllBoots(ds)
    ensures Chain(e, ds).epoch == e.epoch && Chain(e, ds).attempt == e.attempt
  {
    if ds != [] {
      BootChainKeeps(e, ds[..|ds| - 1]);
    }
  }

  /** An envelope whose successor's generation came out as zero is accepted against
      it, whatever the two boots. */
  lemma ZeroDisarms(c: Envelope, cur: Envelope)
    requires c.epoch == cur.epoch && c.attempt == cur.attempt
    requires (cur.attemptGen == 0 && c.attemptGen > 0) || (cur.recoveryGen == 0 && c.recoveryGen > 0)
    ensures !RejectedByAll(c, cur, UNSET)
  {
  }

  /** Along every chain of boots, where a generation wraps to zero the envelope just
      before is accepted again. */
  lemma WrapRevives(e: Envelope, ds: seq<Derivation>, k: nat)
    requires AllBoots(ds) && 0 < k <= |ds|
    requires e.attemptGen + k == MODULUS || e.recoveryGen + k == MODULUS
    ensures !RejectedByAll(Chain(e, ds[..k - 1]), Chain(e, ds[..k]), UNSET)
  {
    hide Chain, RejectedByAll, Advanced;
    BootChainKeeps(e, ds[..k - 1]);
    BootChainKeeps(e, ds[..k]);
    ChainGenerations(e, ds[..k - 1]);
    ChainGenerations(e, ds[..k]);
    var g := if e.attemptGen + k == MODULUS then e.attemptGen else e.recoveryGen;
    AdvanceWithin(g, k - 1);
    AdvanceWithin(g, k);
    ZeroDisarms(Chain(e, ds[..k - 1]), Chain(e, ds[..k]));
  }

  /** Along one chain no fence accepts an earlier envelope against a later one. */
  ghost predicate StaysRejected(e: Envelope, ds: seq<Derivation>) {
    forall i: nat, j: nat, terminal: Envelope :: i < j <= |ds| ==>
      RejectedByAll(Chain(e, ds[..i]), Chain(e, ds[..j]), terminal)
  }

  predicate CannotWrap(e: Envelope, n: nat) {
    n == 0 || (e.attemptGen + n < MODULUS && e.recoveryGen + n < MODULUS)
  }

  /** Of chains of boots, whatever the boots, each keeps stale authority out exactly
      when neither fencing generation can wrap along it. */
  lemma BootsStayRejectedIffNoWrap(e: Envelope, ds: seq<Derivation>)
    requires AllBoots(ds)
    ensures StaysRejected(e, ds) <==> CannotWrap(e, |ds|)
  {
    hide RejectedByAll, Chain;
    if CannotWrap(e, |ds|) {
      ChainStaysRejected(e, ds);
    } else {
      var k := MODULUS - if e.attemptGen + |ds| >= MODULUS then e.attemptGen else e.recoveryGen;
      WrapRevives(e, ds, k);
      assert !RejectedByAll(Chain(e, ds[..k - 1]), Chain(e, ds[..k]), UNSET);
    }
  }

  lemma ChainStaysRejected(e: Envelope, ds: seq<Derivation>)
    requires CannotWrap(e, |ds|)
    ensures StaysRejected(e, ds)
  {
    hide RejectedByAll, Chain;
    forall i: nat, j: nat, terminal: Envelope | i < j <= |ds|
      ensures RejectedByAll(Chain(e, ds[..i]), Chain(e, ds[..j]), terminal)
    {
      StaleNeverRevives(e, ds, i, j, terminal);
    }
  }

  /** Set boots, no two the same and none that of the envelope they start from. */
  predicate FreshBoots(e: Envelope, ds: seq<Derivation>) {
    && AllBoots(ds)
    && (forall i :: 0 <= i < |ds| ==> ds[i].boot != NULL_ID && ds[i].boot != e.boot)
    && forall i, j :: 0 <= i < j < |ds| ==> ds[i].boot != ds[j].boot
  }

  /** Over all chains of n boots and attempts, and over the chains of n fresh boots
      alone, stale authority stays out exactly when no fencing generation can wrap. */
  lemma NeverRevivesIffNoWrap(e: Envelope, n: nat)
    requires n + 1 < 0x1_0000_0000_0000_0000_0000_0000_0000_0000   // there are that many boots
    ensures (forall ds :: |ds| == n ==> StaysRejected(e, ds)) <==> CannotWrap(e, n)
    ensures (forall ds :: |ds| == n && FreshBoots(e, ds) ==> StaysRejected(e, ds)) <==> CannotWrap(e, n)
  {
    hide StaysRejected, CannotWrap;
    if CannotWrap(e, n) {
      forall ds: seq<Derivation> | |ds| == n ensures StaysRejected(e, ds) {
        ChainStaysRejected(e, ds);
      }
    } else {
      var ds := seq(n, i requires 0 <= i < n => ByBoot(if i + 1 < e.boot then i + 1 else i + 2));
      assert FreshBoots(e, ds);
      BootsStayRejectedIffNoWrap(e, ds);
    }
  }

  /** The other direction: after any boots of the same attempt, the newest incarnation
      may recover the work exactly when its recovery generation came out larger, and
      never once that generation is current. */
  lemma SuccessorMayRecover(e: Envelope, ds: seq<Derivation>)
    requires AllBoots(ds)
    ensures FenceRecovery(Chain(e, ds), e, e.recoveryGen) == Accepted
            <==> e.recoveryGen < Advanced(e.recoveryGen, |ds|)
    ensures FenceRecovery(Chain(e, ds), e, Chain(e, ds).recoveryGen)
            == if Chain(e, ds).IsUnset() then Unknown else RecoveryGenerationStale
  {
    hide Chain, Advanced;
    BootChainKeeps(e, ds);
    ChainGenerations(e, ds);
  }

  /** What a completion needs beyond what a failure report needs: the dispatch and the
      boot it names are the current ones, its operation generation has not regressed,
      and it is newer than any outcome on record. */
  lemma CompletionIsStricter(c: Envelope, cur: Envelope, terminal: Envelope)
    ensures FenceCompletion(c, cur, terminal) == Accepted <==>
              && FenceFailure(c, cur) == Accepted
              && (cur.dispatch != NULL_ID ==> c.dispatch == cur.dispatch)
              && (cur.boot != NULL_ID ==> c.boot == cur.boot)
              && cur.operationGen <= c.operationGen
              && (terminal.IsUnset() || terminal.attemptGen < c.attemptGen || terminal.operationGen < c.operationGen)
  {
  }

  /** The holder of the current authority passes both reporting fences until an
      outcome is on record. */
  lemma CurrentIsAccepted(e: Envelope)
    requires !e.IsUnset()
    ensures FenceFailure(e, e) == Accepted
    ensures FenceCompletion(e, e, UNSET) == Accepted
  {
  }

  /** Such a chain: a generation that wraps to zero disarms its own comparison, and
      the superseded envelope is accepted again. */
  lemma WrappedGenerationRevives()
    ensures var e := UNSET.(attemptGen := 0xFFFF_FFFF_FFFF_FFFF, operationGen := 0xFFFF_FFFF_FFFF_FFFF);
            && FenceCompletion(e, Chain(e, [ByBoot(NULL_ID)]), UNSET) == Accepted
            && FenceFailure(e, Chain(e, [ByBoot(NULL_ID)])) == Accepted
  {
    var e := UNSET.(attemptGen := 0xFFFF_FFFF_FFFF_FFFF, operationGen := 0xFFFF_FFFF_FFFF_FFFF);
    var ds := [ByBoot(NULL_ID)];
    assert ds[..0] == [] && Chain(e, ds[..0]) == e;
  }
}

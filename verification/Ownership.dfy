/** Recovery ownership: who may mutate recovery state, fenced by a generation. */
module Ownership {
  import opened Bytes
  import opened Ids
  import opened FailureRecords

  const NONE: RecoveryOwner := 8

  datatype Holder = Holder(owner: RecoveryOwner, generation: u64, boot: Uuid)

  const UNASSIGNED := Holder(NONE, 0, NULL_ID)

  datatype Call =
    | Adopt(owner: RecoveryOwner, generation: u64, boot: Uuid)
    | Transfer(owner: RecoveryOwner, generation: u64, boot: Uuid)

  predicate Granted(h: Holder, c: Call) {
    && c.owner != NONE && c.generation != 0
    && if h.owner == NONE then true else c.Transfer? && h.generation < c.generation
  }

  function Step(h: Holder, c: Call): Holder {
    if Granted(h, c) then Holder(c.owner, c.generation, c.boot) else h
  }

  predicate IsCurrent(h: Holder, boot: Uuid, generation: u64) {
    boot == h.boot && generation == h.generation
  }

  class RecoveryOwnership {
    var owner: RecoveryOwner
    var generation: u64
    var boot: Uuid

    ghost function Value(): Holder
      reads this
    {
      Holder(owner, generation, boot)
    }

    constructor ()
      ensures Value() == UNASSIGNED
    {
      owner, generation, boot := NONE, 0, NULL_ID;
    }

    method Adopt(newOwner: RecoveryOwner, gen: u64, newBoot: Uuid) returns (granted: bool)
      modifies this
      ensures granted == Granted(old(Value()), Call.Adopt(newOwner, gen, newBoot))
      ensures Value() == Step(old(Value()), Call.Adopt(newOwner, gen, newBoot))
    {
      if newOwner == NONE || gen == 0 {
        return false;
      }
      if owner != NONE {
        return false;
      }
      owner, generation, boot := newOwner, gen, newBoot;
      return true;
    }

    method Transfer(newOwner: RecoveryOwner, gen: u64, newBoot: Uuid) returns (granted: bool)
      modifies this
      ensures granted == Granted(old(Value()), Call.Transfer(newOwner, gen, newBoot))
      ensures Value() == Step(old(Value()), Call.Transfer(newOwner, gen, newBoot))
    {
      if newOwner == NONE || gen == 0 {
        return false;
      }
      if owner == NONE {
        granted := Adopt(newOwner, gen, newBoot);
        return;
      }
      if !(generation < gen) {
        return false;
      }
      owner, generation, boot := newOwner, gen, newBoot;
      return true;
    }

    method Reset()
      modifies this
      ensures Value() == UNASSIGNED
    {
      owner, generation, boot := NONE, 0, NULL_ID;
    }
  }

  // ------------------------------------------------------------------- runs

  function Exec(h: Holder, cs: seq<Call>): Holder {
    if cs == [] then h else Step(Exec(h, cs[..|cs| - 1]), cs[|cs| - 1])
  }

  /** The holder just before call i of a run on a fresh object. */
  function At(cs: seq<Call>, i: nat): Holder
    requires i <= |cs|
  {
    Exec(UNASSIGNED, cs[..i])
  }

  predicate GrantedAt(cs: seq<Call>, i: nat)
    requires i < |cs|
  {
    Granted(At(cs, i), cs[i])
  }

  lemma NextHolder(cs: seq<Call>, i: nat)
    requires i < |cs|
    ensures At(cs, i + 1) == Step(At(cs, i), cs[i])
  {
    assert cs[..i + 1][..i] == cs[..i];
  }

  /** The generation is zero exactly while nobody owns recovery; it never falls,
      it rises with every grant, and an owner once assigned stays assigned. */
  lemma {:induction false} HolderAdvances(cs: seq<Call>, i: nat, j: nat)
    requires i <= j <= |cs|
    ensures At(cs, j).owner == NONE <==> At(cs, j).generation == 0
    ensures At(cs, i).generation <= At(cs, j).generation
    ensures (exists k :: i <= k < j && GrantedAt(cs, k)) ==> At(cs, i).generation < At(cs, j).generation
    ensures At(cs, i).owner != NONE ==> At(cs, j).owner != NONE
    decreases j
  {
    if j > 0 {
      HolderAdvances(cs, if i < j then i else j - 1, j - 1);
      hide Exec;
      NextHolder(cs, j - 1);
    }
  }

  /** No split-brain: of two grants in one run the later has the larger generation,
      so no generation is granted twice, and the owner it set stays assigned. */
  lemma GrantsIncrease(cs: seq<Call>, i: nat, j: nat)
    requires i < j < |cs| && GrantedAt(cs, i) && GrantedAt(cs, j)
    ensures cs[i].generation < cs[j].generation
    ensures At(cs, j).owner != NONE
  {
    NextHolder(cs, i);
    NextHolder(cs, j);
    HolderAdvances(cs, i + 1, j);
    HolderAdvances(cs, j, j + 1);
  }

  /** A pair that was current and has been superseded by a grant is never current again. */
  lemma SupersededNeverCurrent(cs: seq<Call>, i: nat, k: nat, j: nat, boot: Uuid, generation: u64)
    requires i <= k < j <= |cs| && GrantedAt(cs, k)
    requires IsCurrent(At(cs, i), boot, generation)
    ensures !IsCurrent(At(cs, j), boot, generation)
  {
    HolderAdvances(cs, i, j);
  }

  /** Call i is the last before j that was granted. */
  ghost predicate LastGrant(cs: seq<Call>, i: nat, j: nat)
    requires j <= |cs|
  {
    i < j && GrantedAt(cs, i) && forall k :: i < k < j ==> !GrantedAt(cs, k)
  }

  lemma {:induction false} HolderSince(cs: seq<Call>, i: nat, j: nat)
    requires i < j <= |cs| && GrantedAt(cs, i) && forall k :: i < k < j ==> !GrantedAt(cs, k)
    ensures At(cs, j) == Holder(cs[i].owner, cs[i].generation, cs[i].boot)
    decreases j
  {
    hide At;
    NextHolder(cs, j - 1);
    if i < j - 1 {
      HolderSince(cs, i, j - 1);
      assert !GrantedAt(cs, j - 1);
    }
  }

  lemma {:induction false} NobodySince(cs: seq<Call>, j: nat)
    requires j <= |cs| && forall k :: 0 <= k < j ==> !GrantedAt(cs, k)
    ensures At(cs, j) == UNASSIGNED
  {
    hide At;
    if j == 0 {
      StartUnassigned(cs);
    } else {
      NobodySince(cs, j - 1);
      NextHolder(cs, j - 1);
      assert !GrantedAt(cs, j - 1);
    }
  }

  /** The holder is whoever was granted last, with that generation and boot; before any
      grant nobody is. */
  lemma HolderIsLastGrant(cs: seq<Call>, j: nat)
    requires j <= |cs|
    ensures (forall i :: 0 <= i < j ==> !GrantedAt(cs, i)) ==> At(cs, j) == UNASSIGNED
    ensures forall i :: 0 <= i < j && LastGrant(cs, i, j) ==>
              && At(cs, j).owner == cs[i].owner && At(cs, j).generation == cs[i].generation
              && At(cs, j).boot == cs[i].boot
  {
    hide At, GrantedAt;
    if forall i :: 0 <= i < j ==> !GrantedAt(cs, i) {
      NobodySince(cs, j);
    }
    forall i | 0 <= i < j && LastGrant(cs, i, j)
      ensures At(cs, j) == Holder(cs[i].owner, cs[i].generation, cs[i].boot)
    {
      HolderSince(cs, i, j);
    }
  }

  lemma StartUnassigned(cs: seq<Call>)
    ensures At(cs, 0) == UNASSIGNED
  {
  }

  /** A call that names an owner and a generation. */
  predicate Proper(c: Call) {
    c.owner != NONE && c.generation != 0
  }

  lemma {:induction false} OwnedOnceProper(cs: seq<Call>, j: nat)
    requires j <= |cs|
    ensures At(cs, j).owner == NONE <==> forall i :: 0 <= i < j ==> !Proper(cs[i])
    ensures forall i :: 0 <= i < j && GrantedAt(cs, i) ==> cs[i].generation <= At(cs, j).generation
    ensures At(cs, j).owner != NONE ==>
              exists i :: 0 <= i < j && GrantedAt(cs, i) && cs[i].generation == At(cs, j).generation
  {
    hide Exec;
    if j > 0 {
      OwnedOnceProper(cs, j - 1);
      HolderAdvances(cs, j - 1, j - 1);
      NextHolder(cs, j - 1);
    } else {
      StartUnassigned(cs);
    }
  }

  /** Exactly which calls of a run are granted: the first that names an owner and a
      generation, and after it the transfers to a generation above all granted before. */
  lemma GrantedExactly(cs: seq<Call>, j: nat)
    requires j < |cs|
    ensures GrantedAt(cs, j) <==>
              && Proper(cs[j])
              && ((forall i :: 0 <= i < j ==> !Proper(cs[i]))
                  || (cs[j].Transfer?
                      && forall i :: 0 <= i < j && GrantedAt(cs, i) ==> cs[i].generation < cs[j].generation))
  {
    hide At;
    OwnedOnceProper(cs, j);
  }

  /** The current pair is that of the last grant, and no other. */
  lemma CurrentExactly(cs: seq<Call>, i: nat, j: nat, boot: Uuid, generation: u64)
    requires j <= |cs| && LastGrant(cs, i, j)
    ensures IsCurrent(At(cs, j), boot, generation) <==> boot == cs[i].boot && generation == cs[i].generation
  {
    HolderIsLastGrant(cs, j);
  }
}

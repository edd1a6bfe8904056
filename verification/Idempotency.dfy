/** The idempotency store and its guarantees over whole runs. */
module Idempotency {
  import opened Bytes
  import opened Ids
  import opened Authority

  /** IdempotencyState as stored: any 32-bit value can be read back from a snapshot. */
  type IdemState = u32

  const IN_PROGRESS: IdemState := 0
  const COMPLETED: IdemState := 1
  const FAILED: IdemState := 2
  const CONFLICTED: IdemState := 3

  datatype Verdict = NEW | IN_PROGRESS_REPLAY | COMPLETED_REPLAY | CONFLICT

  datatype Key = Key(op: Uuid, key: Uuid)

  datatype Entry = Entry(hash: u64, state: IdemState, metadata: Text, authority: Envelope)

  datatype EntryView = EntryView(key: Key, hash: u64, state: IdemState, metadata: Text)

  type Entries = map<Key, Entry>

  const BLANK := Entry(0, IN_PROGRESS, [], UNSET)

  // -------------------------------------------------------------- specification

  datatype Call =
    | Begin(key: Key, hash: u64, authority: Envelope)
    | Complete(key: Key, metadata: Text)
    | Fail(key: Key)
    | MarkConflict(key: Key)

  function VerdictFor(e: Entry, hash: u64): Verdict {
    if e.hash != hash || e.state == CONFLICTED then CONFLICT
    else if e.state == COMPLETED then COMPLETED_REPLAY
    else if e.state == FAILED then NEW
    else IN_PROGRESS_REPLAY
  }

  function EntryOrBlank(m: Entries, k: Key): Entry {
    if k in m then m[k] else BLANK
  }

  /** One call; only Begin answers. */
  function Step(m: Entries, c: Call): (Entries, Option<Verdict>) {
    match c
    case Begin(k, hash, authority) =>
      if k in m then (m, Some(VerdictFor(m[k], hash)))
      else (m[k := Entry(hash, IN_PROGRESS, [], authority)], Some(NEW))
    case Complete(k, metadata) =>
      (m[k := EntryOrBlank(m, k).(state := COMPLETED, metadata := metadata)], None)
    case Fail(k) =>
      (if k in m then m[k := m[k].(state := FAILED)] else m, None)
    case MarkConflict(k) =>
      (m[k := EntryOrBlank(m, k).(state := CONFLICTED)], None)
  }

  function PriorResultOf(m: Entries, k: Key): Option<Text> {
    if k in m && m[k].state == COMPLETED then Some(m[k].metadata) else None
  }

  function ViewOf(m: Entries, k: Key): EntryView
    requires k in m
  {
    EntryView(k, m[k].hash, m[k].state, m[k].metadata)
  }

  /** Some order in which an iteration can visit the keys of a map. */
  ghost predicate Enumerates<K(!new)>(order: seq<K>, keys: set<K>) {
    && (forall k :: k in order <==> k in keys)
    && (forall i, j :: 0 <= i < j < |order| ==> order[i] != order[j])
  }

  class IdempotencyStore {
    var entries: Entries

    constructor ()
      ensures entries == map[]
    {
      entries := map[];
    }

    method Begin(k: Key, hash: u64, authority: Envelope) returns (v: Verdict)
      modifies this
      ensures (entries, Some(v)) == Step(old(entries), Call.Begin(k, hash, authority))
    {
      if k !in entries {
        entries := entries[k := Entry(hash, IN_PROGRESS, [], authority)];
        return NEW;
      }
      var e := entries[k];
      if e.hash != hash {
        return CONFLICT;
      }
      if e.state == CONFLICTED {
        return CONFLICT;
      }
      if e.state == COMPLETED {
        return COMPLETED_REPLAY;
      }
      if e.state == FAILED {
        return NEW;
      }
      return IN_PROGRESS_REPLAY;
    }

    method Complete(k: Key, metadata: Text)
      modifies this
      ensures entries == Step(old(entries), Call.Complete(k, metadata)).0
    {
      if k !in entries {
        entries := entries[k := BLANK];
      }
      entries := entries[k := entries[k].(state := COMPLETED, metadata := metadata)];
    }

    method Fail(k: Key)
      modifies this
      ensures entries == Step(old(entries), Call.Fail(k)).0
    {
      if k in entries {
        entries := entries[k := entries[k].(state := FAILED)];
      }
    }

    method MarkConflict(k: Key)
      modifies this
      ensures entries == Step(old(entries), Call.MarkConflict(k)).0
    {
      if k !in entries {
        entries := entries[k := BLANK];
      }
      entries := entries[k := entries[k].(state := CONFLICTED)];
    }

    method PriorResult(k: Key) returns (found: bool, metadata: Text)
      ensures found == PriorResultOf(entries, k).Some?
      ensures found ==> PriorResultOf(entries, k) == Some(metadata)
    {
      if k in entries && entries[k].state == COMPLETED {
        return true, entries[k].metadata;
      }
      return false, [];
    }

    /** Puts an entry back without its authority, replacing any entry of that key. */
    method Restore(k: Key, hash: u64, state: IdemState, metadata: Text)
      modifies this
      ensures entries == old(entries)[k := Entry(hash, state, metadata, UNSET)]
    {
      entries := entries[k := Entry(hash, state, metadata, UNSET)];
    }

    /** One view per entry, in the order the iteration happens to take. */
    method Collect(order: seq<Key>) returns (views: seq<EntryView>)
      requires Enumerates(order, entries.Keys)
      ensures |views| == |order| && forall i :: 0 <= i < |order| ==> views[i] == ViewOf(entries, order[i])
    {
      views := [];
      for i := 0 to |order|
        invariant |views| == i && forall k :: 0 <= k < i ==> views[k] == ViewOf(entries, order[k])
      {
        assert order[i] in order;
        views := views + [ViewOf(entries, order[i])];
      }
    }

    method Clear()
      modifies this
      ensures entries == map[]
    {
      entries := map[];
    }
  }

  // ------------------------------------------------------------------- runs

  function Exec(m: Entries, cs: seq<Call>): Entries {
    if cs == [] then m else Step(Exec(m, cs[..|cs| - 1]), cs[|cs| - 1]).0
  }

  /** What call i of a run answers. */
  function Answer(cs: seq<Call>, i: nat): Option<Verdict>
    requires i < |cs|
  {
    Step(Exec(map[], cs[..i]), cs[i]).1
  }

  /** The table just before call i. */
  function At(cs: seq<Call>, i: nat): Entries
    requires i <= |cs|
  {
    Exec(map[], cs[..i])
  }

  lemma NextTable(cs: seq<Call>, i: nat)
    requires i < |cs|
    ensures At(cs, i + 1) == Step(At(cs, i), cs[i]).0
  {
    assert cs[..i + 1][..i] == cs[..i];
  }

  /** An entry never disappears and never changes its payload hash. */
  lemma {:induction false} HashKept(cs: seq<Call>, i: nat, j: nat, k: Key)
    requires i <= j <= |cs| && k in At(cs, i)
    ensures k in At(cs, j) && At(cs, j)[k].hash == At(cs, i)[k].hash
  {
    if i < j {
      HashKept(cs, i, j - 1, k);
      hide Exec;
      NextTable(cs, j - 1);
    }
  }

  /** Any two Begin calls on one key that are not answered CONFLICT carry the same payload hash. */
  lemma AcceptedHashesAgree(cs: seq<Call>, i: nat, j: nat)
    requires i <= j < |cs| && cs[i].Begin? && cs[j].Begin? && cs[i].key == cs[j].key
    requires Answer(cs, i) != Some(CONFLICT) && Answer(cs, j) != Some(CONFLICT)
    ensures cs[i].hash == cs[j].hash
  {
    if i < j {
      NextTable(cs, i);
      HashKept(cs, i + 1, j, cs[i].key);
    }
  }

  predicate IsFail(c: Call) {
    c.Fail?
  }

  /** No call of that kind on the key from one position to the other. */
  ghost predicate Untouched(cs: seq<Call>, from: nat, to: nat, k: Key, kind: Call -> bool)
    requires from <= to <= |cs|
  {
    forall n :: from <= n < to && cs[n].key == k ==> !kind(cs[n])
  }

  predicate Creating(c: Call) {
    !c.Fail?
  }

  predicate Settling(c: Call) {
    c.Complete? || c.MarkConflict?
  }

  /** Call i is the first on the key that makes an entry. */
  ghost predicate Creates(cs: seq<Call>, i: nat, k: Key) {
    i < |cs| && cs[i].key == k && Creating(cs[i]) && Untouched(cs, 0, i, k, Creating)
  }

  function CreatedHash(c: Call): u64 {
    if c.Begin? then c.hash else 0
  }

  /** Between i and j the key failed and has not been completed or marked since. */
  ghost predicate FailedLast(cs: seq<Call>, i: nat, j: nat, k: Key)
    requires j <= |cs|
  {
    exists f :: i < f < j && cs[f] == Fail(k) && Untouched(cs, f + 1, j, k, Settling)
  }

  lemma {:induction false} EntryExists(cs: seq<Call>, j: nat, k: Key)
    requires j <= |cs|
    ensures k in At(cs, j) <==> !Untouched(cs, 0, j, k, Creating)
    ensures k in At(cs, j) <==> exists i :: 0 <= i < j && Creates(cs, i, k)
  {
    if j > 0 {
      EntryExists(cs, j - 1, k);
      hide Exec;
      NextTable(cs, j - 1);
      if k in At(cs, j) && k !in At(cs, j - 1) {
        assert Creates(cs, j - 1, k);
      }
    }
  }

  lemma FailedLastNext(cs: seq<Call>, i: nat, j: nat, k: Key)
    requires i < j < |cs|
    ensures FailedLast(cs, i, j + 1, k) <==>
              cs[j] == Fail(k) || (FailedLast(cs, i, j, k) && !(cs[j].key == k && Settling(cs[j])))
  {
    if cs[j] == Fail(k) {
      assert Untouched(cs, j + 1, j + 1, k, Settling);
    } else if FailedLast(cs, i, j, k) && !(cs[j].key == k && Settling(cs[j])) {
      var f :| i < f < j && cs[f] == Fail(k) && Untouched(cs, f + 1, j, k, Settling);
      assert Untouched(cs, f + 1, j + 1, k, Settling);
    }
  }

  /** From its creation on, an entry keeps its hash and is failed exactly when a Fail
      is the last thing that settled it. */
  lemma {:induction false} EntryFollows(cs: seq<Call>, i: nat, j: nat, k: Key)
    requires i < j <= |cs| && Creates(cs, i, k)
    ensures k in At(cs, j) && At(cs, j)[k].hash == CreatedHash(cs[i])
    ensures At(cs, j)[k].state == FAILED <==> FailedLast(cs, i, j, k)
    decreases j
  {
    hide Exec, FailedLast, Untouched;
    if i + 1 < j {
      EntryFollows(cs, i, j - 1, k);
      FailedLastNext(cs, i, j - 1, k);
    } else {
      EntryExists(cs, i, k);
      NothingFailedYet(cs, i, k);
    }
    NextTable(cs, j - 1);
  }

  lemma NothingFailedYet(cs: seq<Call>, i: nat, k: Key)
    requires i < |cs|
    ensures !FailedLast(cs, i, i + 1, k)
  {
  }

  /** Exactly when a Begin is told that the work is new: either nothing has made an
      entry for its key, or it carries the hash the entry was made with and the key
      has failed and neither been completed nor marked since. */
  lemma NewAnsweredExactly(cs: seq<Call>, j: nat)
    requires j < |cs| && cs[j].Begin?
    ensures var k := cs[j].key;
            Answer(cs, j) == Some(NEW) <==>
              || (forall i :: 0 <= i < j ==> !Creates(cs, i, k))
              || (exists i :: 0 <= i < j && Creates(cs, i, k)
                              && cs[j].hash == CreatedHash(cs[i]) && FailedLast(cs, i, j, k))
  {
    hide Exec, FailedLast, Creates;
    var k := cs[j].key;
    EntryExists(cs, j, k);
    forall i | 0 <= i < j && Creates(cs, i, k)
      ensures Answer(cs, j) == Some(NEW) <==> cs[j].hash == CreatedHash(cs[i]) && FailedLast(cs, i, j, k)
    {
      EntryFollows(cs, i, j, k);
    }
  }

  /** Of the Begin that made the entry and a later one: the second is told that the
      work is new exactly when it carries the same hash and a Fail on the key has not
      been followed by Complete or MarkConflict. */
  lemma NewAgainExactly(cs: seq<Call>, i: nat, j: nat)
    requires i < j < |cs| && cs[i].Begin? && cs[j].Begin? && cs[i].key == cs[j].key
    requires Creates(cs, i, cs[i].key)
    ensures Answer(cs, i) == Some(NEW)
    ensures Answer(cs, j) == Some(NEW) <==> cs[j].hash == cs[i].hash && FailedLast(cs, i, j, cs[i].key)
  {
    hide Exec, FailedLast;
    EntryExists(cs, i, cs[i].key);
    EntryFollows(cs, i, j, cs[i].key);
  }

  /** In particular, without a Fail on the key at most one Begin is told that the work is new. */
  lemma AtMostOneNew(cs: seq<Call>, i: nat, j: nat)
    requires i < j < |cs| && cs[i].Begin? && cs[j].Begin? && cs[i].key == cs[j].key
    requires Untouched(cs, 0, j, cs[i].key, IsFail)
    requires Answer(cs, i) == Some(NEW)
    ensures Answer(cs, j) != Some(NEW)
  {
    hide Exec, Answer;
    NewAnsweredExactly(cs, i);
    NewAnsweredExactly(cs, j);
    FirstBefore(cs, i, cs[i].key);
  }

  /** A call that makes an entry is the first to do so or comes after the first. */
  lemma {:induction false} FirstBefore(cs: seq<Call>, i: nat, k: Key)
    requires i < |cs| && cs[i].key == k && Creating(cs[i])
    ensures Creates(cs, i, k) || exists n :: 0 <= n < i && Creates(cs, n, k)
  {
    if n :| 0 <= n < i && cs[n].key == k && Creating(cs[n]) {
      FirstBefore(cs, n, k);
    }
  }

  predicate Reclassifies(c: Call) {
    c.Complete? || c.Fail? || c.MarkConflict?
  }

  lemma {:induction false} CompletionKept(cs: seq<Call>, i: nat, j: nat, k: Key, metadata: Text)
    requires i < j <= |cs| && cs[i] == Complete(k, metadata)
    requires Untouched(cs, i + 1, j, k, Reclassifies)
    ensures k in At(cs, j) && At(cs, j)[k].state == COMPLETED && At(cs, j)[k].metadata == metadata
    decreases j
  {
    if i + 1 < j {
      CompletionKept(cs, i, j - 1, k, metadata);
    }
    hide Exec;
    NextTable(cs, j - 1);
  }

  /** After Complete, and until the key is completed, failed or marked again, the
      metadata is what PriorResult returns, a Begin with the entry's hash is a
      completed replay and any other Begin is a conflict. */
  lemma CompletedReplays(cs: seq<Call>, i: nat, j: nat, k: Key, metadata: Text)
    requires i < j < |cs| && cs[i] == Complete(k, metadata)
    requires Untouched(cs, i + 1, j, k, Reclassifies)
    ensures PriorResultOf(At(cs, j), k) == Some(metadata)
    ensures cs[j].Begin? && cs[j].key == k ==>
              Answer(cs, j) == Some(if cs[j].hash == At(cs, j)[k].hash then COMPLETED_REPLAY else CONFLICT)
  {
    CompletionKept(cs, i, j, k, metadata);
  }

  /** The hash a Begin was accepted with is the one a completed replay must match. */
  lemma AcceptedHashReplays(cs: seq<Call>, b: nat, i: nat, j: nat, k: Key, metadata: Text)
    requires b < i < j < |cs| && cs[b].Begin? && cs[b].key == k && Answer(cs, b) != Some(CONFLICT)
    requires cs[i] == Complete(k, metadata) && Untouched(cs, i + 1, j, k, Reclassifies)
    requires cs[j].Begin? && cs[j].key == k
    ensures Answer(cs, j) == Some(COMPLETED_REPLAY) <==> cs[j].hash == cs[b].hash
  {
    CompletedReplays(cs, i, j, k, metadata);
    NextTable(cs, b);
    HashKept(cs, b + 1, j, k);
  }

  // ---------------------------------------------------- every answer, exactly

  /** The last call on the key, from its creation on, that completed, failed or marked it. */
  function Settled(cs: seq<Call>, i: nat, j: nat, k: Key): Option<Call>
    requires j <= |cs|
    decreases j
  {
    if j <= i then None
    else if cs[j - 1].key == k && Reclassifies(cs[j - 1]) then Some(cs[j - 1])
    else Settled(cs, i, j - 1, k)
  }

  /** What the key was last completed with, if it was. */
  function LastMetadata(cs: seq<Call>, i: nat, j: nat, k: Key): Text
    requires j <= |cs|
    decreases j
  {
    if j <= i then []
    else if cs[j - 1].key == k && cs[j - 1].Complete? then cs[j - 1].metadata
    else LastMetadata(cs, i, j - 1, k)
  }

  /** The entry that the calls from its creation on leave behind. */
  lemma {:induction false} EntrySettled(cs: seq<Call>, i: nat, j: nat, k: Key)
    requires i < j <= |cs| && Creates(cs, i, k)
    ensures k in At(cs, j)
    ensures var e := At(cs, j)[k];
            && e.hash == CreatedHash(cs[i])
            && e.authority == (if cs[i].Begin? then cs[i].authority else UNSET)
            && e.metadata == LastMetadata(cs, i, j, k)
            && match Settled(cs, i, j, k)
               case None => e.state == IN_PROGRESS && e.metadata == []
               case Some(c) =>
                 && (c.Complete? ==> e.state == COMPLETED && e.metadata == c.metadata)
                 && (c.Fail? ==> e.state == FAILED)
                 && (c.MarkConflict? ==> e.state == CONFLICTED)
    decreases j
  {
    hide Exec, Untouched;
    if i + 1 < j {
      EntrySettled(cs, i, j - 1, k);
    } else {
      EntryExists(cs, i, k);
      assert Settled(cs, i, i, k) == None && LastMetadata(cs, i, i, k) == [];
    }
    NextTable(cs, j - 1);
  }

  /** What every Begin answers, in every run: NEW where nothing has made an entry, and
      from its creation on CONFLICT to any other hash, and to its own hash whatever the
      key was last settled as. */
  lemma VerdictExactly(cs: seq<Call>, j: nat)
    requires j < |cs| && cs[j].Begin?
    ensures var k := cs[j].key;
            && ((forall i :: 0 <= i < j ==> !Creates(cs, i, k)) ==> Answer(cs, j) == Some(NEW))
            && forall i :: 0 <= i < j && Creates(cs, i, k) ==>
                 Answer(cs, j) == Some(
                   if cs[j].hash != CreatedHash(cs[i]) then CONFLICT
                   else match Settled(cs, i, j, k)
                        case None => IN_PROGRESS_REPLAY
                        case Some(c) => if c.Complete? then COMPLETED_REPLAY else if c.Fail? then NEW else CONFLICT)
  {
    hide Exec, Creates, Settled;
    var k := cs[j].key;
    EntryExists(cs, j, k);
    forall i | 0 <= i < j && Creates(cs, i, k)
      ensures Answer(cs, j) == Some(
                if cs[j].hash != CreatedHash(cs[i]) then CONFLICT
                else match Settled(cs, i, j, k)
                     case None => IN_PROGRESS_REPLAY
                     case Some(c) => if c.Complete? then COMPLETED_REPLAY else if c.Fail? then NEW else CONFLICT)
    {
      EntrySettled(cs, i, j, k);
      SettledReclassifies(cs, i, j, k);
    }
  }

  lemma {:induction false} SettledReclassifies(cs: seq<Call>, i: nat, j: nat, k: Key)
    requires j <= |cs|
    ensures Settled(cs, i, j, k).Some? ==> Reclassifies(Settled(cs, i, j, k).value)
    decreases j
  {
    if j > i {
      SettledReclassifies(cs, i, j - 1, k);
    }
  }

  /** A prior result is found exactly while the key is settled as completed, and is what
      it was completed with. */
  lemma PriorResultExactly(cs: seq<Call>, j: nat, k: Key)
    requires j <= |cs|
    ensures (forall i :: 0 <= i < j ==> !Creates(cs, i, k)) ==> PriorResultOf(At(cs, j), k) == None
    ensures forall i :: 0 <= i < j && Creates(cs, i, k) ==>
              PriorResultOf(At(cs, j), k) == match Settled(cs, i, j, k)
                                             case None => None
                                             case Some(c) => if c.Complete? then Some(c.metadata) else None
  {
    hide Exec, Creates, Settled;
    EntryExists(cs, j, k);
    forall i | 0 <= i < j && Creates(cs, i, k)
      ensures PriorResultOf(At(cs, j), k) == match Settled(cs, i, j, k)
                                             case None => None
                                             case Some(c) => if c.Complete? then Some(c.metadata) else None
    {
      EntrySettled(cs, i, j, k);
      SettledReclassifies(cs, i, j, k);
    }
  }

  lemma {:induction false} MarkStays(cs: seq<Call>, i: nat, m: nat, j: nat, k: Key)
    requires i <= m < j <= |cs| && cs[m] == MarkConflict(k)
    requires forall n :: m < n < j && cs[n].key == k ==> !cs[n].Complete? && !cs[n].Fail?
    ensures Settled(cs, i, j, k) == Some(MarkConflict(k))
    decreases j
  {
    if m + 1 < j && !(cs[j - 1].key == k && Reclassifies(cs[j - 1])) {
      MarkStays(cs, i, m, j - 1, k);
    }
  }

  /** A key marked in conflict stays so: until it is completed or failed, every Begin on
      it, whatever its hash, answers CONFLICT and no prior result is found. */
  lemma MarkedStaysInConflict(cs: seq<Call>, m: nat, j: nat, k: Key)
    requires m < j < |cs| && cs[m] == MarkConflict(k)
    requires forall n :: m < n < j && cs[n].key == k ==> !cs[n].Complete? && !cs[n].Fail?
    ensures cs[j].Begin? && cs[j].key == k ==> Answer(cs, j) == Some(CONFLICT)
    ensures PriorResultOf(At(cs, j), k) == None
  {
    hide Exec, Creates, Settled, Answer, PriorResultOf, At;
    FirstBefore(cs, m, k);
    var i :| 0 <= i <= m && Creates(cs, i, k);
    MarkStays(cs, i, m, j, k);
    PriorResultExactly(cs, j, k);
    if cs[j].Begin? && cs[j].key == k {
      VerdictExactly(cs, j);
    }
  }

  /** A run from the empty store in which the same request is new twice. */
  lemma NewTwice(k: Key, hash: u64, authority: Envelope)
    ensures var cs := [Begin(k, hash, authority), Fail(k), Begin(k, hash, authority)];
            Answer(cs, 0) == Some(NEW) && Answer(cs, 2) == Some(NEW)
  {
    var cs := [Begin(k, hash, authority), Fail(k), Begin(k, hash, authority)];
    assert Untouched(cs, 0, 0, k, Creating) && Creates(cs, 0, k);
    assert Untouched(cs, 2, 2, k, Settling) && cs[1] == Fail(k);
    assert FailedLast(cs, 0, 2, k);
    NewAgainExactly(cs, 0, 2);
  }

  // --------------------------------------------------- tables equal up to authority

  /** Equal in everything a snapshot keeps. */
  ghost predicate SameVisible(a: Entries, b: Entries) {
    a.Keys == b.Keys && forall k :: k in a ==> ViewOf(a, k) == ViewOf(b, k)
  }

  /** No answer depends on the authority of an entry, now or later. */
  lemma VisibleDecides(a: Entries, b: Entries, c: Call)
    requires SameVisible(a, b)
    ensures Step(a, c).1 == Step(b, c).1 && SameVisible(Step(a, c).0, Step(b, c).0)
    ensures forall k :: PriorResultOf(a, k) == PriorResultOf(b, k)
  {
    assert c.key in a.Keys <==> c.key in b.Keys;
    var a', b' := Step(a, c).0, Step(b, c).0;
    if c.key in a {
      assert ViewOf(a, c.key) == ViewOf(b, c.key);
    }
    forall k | k in a' ensures k in b' && ViewOf(a', k) == ViewOf(b', k) {
      if k in a {
        assert ViewOf(a, k) == ViewOf(b, k);
      }
    }
    assert a'.Keys == b'.Keys;
    forall k ensures PriorResultOf(a, k) == PriorResultOf(b, k) {
      assert k in a.Keys <==> k in b.Keys;
      if k in a {
        assert ViewOf(a, k) == ViewOf(b, k);
      }
    }
  }

  lemma SameVisibleThrough(a: Entries, b: Entries, c: Entries)
    requires SameVisible(a, b) && SameVisible(b, c)
    ensures SameVisible(a, c)
  {
    forall k | k in a ensures k in c && ViewOf(a, k) == ViewOf(c, k) {
      assert k in b.Keys && ViewOf(b, k) == ViewOf(c, k);
    }
  }
}

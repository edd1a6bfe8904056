/** Which crashes can be noticed: exactly when a run with saves and crashes answers
    like the same calls without them. */
module Transparency {
  import opened Bytes
  import opened Authority
  import opened Codec
  import opened FailureRecords
  import opened Snapshot
  import opened SnapshotPayloads
  import opened SnapshotLaws
  import opened Crashes
  import Registry
  import Idempotency
  import Ownership
  import Store

  // ------------------------------------------- calls whose effect the format gives back

  /** Valid authorities, text that fits its length field, at most 4096 dependencies;
      no ownership call, for ownership is not given back. */
  predicate Representable(c: StoreCall) {
    match c
    case OnOps(Restore(_, rt)) => ValidRuntime(rt) && |rt.outcome| <= 0xFFFF
    case OnOps(RecordTerminal(_, env, outcome)) => ValidAuthority(env) && |outcome| <= 0xFFFF
    case OnOps(call) => ValidAuthority(call.env)
    case OnIdem(Complete(_, metadata)) => |metadata| <= 0xFFFF
    case OnIdem(_) => true
    case PriorResult(_) => true
    case OnLog(r) => |r.dependencies| <= MAX_DEPENDENCIES && ShortRecord(r)
    case OnOwner(_) => false
  }

  /** Such records are never too large. */
  lemma RepresentableIsSizeable(c: StoreCall)
    requires Representable(c)
    ensures Sizeable(c)
  {
    hide RecordBytes;
    if c.OnLog? {
      RecordSize(c.record);
    }
  }

  ghost predicate Fits(v: StoreValue) {
    Loadable(v) && ShortTexts(v)
  }

  lemma OpsStayRepresentable(r: Registry.Runtime, c: Registry.Call)
    requires ValidRuntime(r) && |r.outcome| <= 0xFFFF && Representable(OnOps(c))
    ensures var r' := Registry.Apply(r, c).0; ValidRuntime(r') && |r'.outcome| <= 0xFFFF
  {
    hide ValidAuthority, Registry.PassesFence, Registry.FirstTerminal;
  }

  lemma OpsFit(v: StoreValue, c: Registry.Call)
    requires Fits(v) && Representable(OnOps(c))
    ensures Fits(Perform(v, OnOps(c)).0)
  {
    hide Registry.Apply, Decodable, ShortRecord;
    if c.op in v.ops {
      OpsStayRepresentable(v.ops[c.op], c);
    }
  }

  lemma IdemFit(v: StoreValue, c: Idempotency.Call)
    requires Fits(v) && Representable(OnIdem(c))
    ensures Fits(Perform(v, OnIdem(c)).0)
  {
    hide Decodable, ShortRecord, ValidRuntime;
  }

  lemma LogFits(v: StoreValue, r: FailureRecord)
    requires Fits(v) && Representable(OnLog(r))
    ensures Fits(Perform(v, OnLog(r)).0)
  {
    hide ValidRuntime, ValidAuthority, ShortRecord;
  }

  lemma CallFits(v: StoreValue, c: StoreCall)
    requires Fits(v) && Representable(c)
    ensures Fits(Perform(v, c).0)
  {
    hide Fits, Registry.Step, Idempotency.Step, Store.Append, ValidRuntime, ValidAuthority, ShortRecord;
    match c
    case OnOps(call) => OpsFit(v, call);
    case OnIdem(call) => IdemFit(v, call);
    case PriorResult(_) =>
    case OnLog(r) => LogFits(v, r);
  }

  /** The same log, the same operations and the same visible idempotency entries. */
  ghost predicate Alike(a: StoreValue, b: StoreValue) {
    a.failures == b.failures && a.ops == b.ops && Idempotency.SameVisible(a.idem, b.idem)
  }

  lemma AlikeReplies(a: StoreValue, b: StoreValue, c: StoreCall)
    requires Alike(a, b) && !c.OnOwner?
    ensures Perform(a, c).1 == Perform(b, c).1 && Alike(Perform(a, c).0, Perform(b, c).0)
  {
    hide Registry.Step, Idempotency.Step, Idempotency.SameVisible, Idempotency.PriorResultOf, Store.Append;
    match c
    case OnOps(_) =>
    case OnIdem(call) => Idempotency.VisibleDecides(a.idem, b.idem, call);
    case PriorResult(k) => Idempotency.VisibleDecides(a.idem, b.idem, Idempotency.Fail(k));
    case OnLog(_) =>
  }

  lemma AlikeFits(a: StoreValue, b: StoreValue)
    requires Alike(a, b) && Fits(b)
    ensures Fits(a)
  {
    hide Decodable, ShortRecord, ValidRuntime;
    forall k | k in a.idem ensures |a.idem[k].metadata| <= 0xFFFF {
      assert Idempotency.ViewOf(a.idem, k) == Idempotency.ViewOf(b.idem, k);
    }
  }

  lemma AlikeSelf(v: StoreValue)
    ensures Alike(v, v)
  {
  }

  /** A whole save keeps what fits. */
  lemma KeptAlike(live: StoreValue, v: StoreValue, lost: nat)
    requires Alike(live, v) && Fits(v) && Whole(lost)
    ensures Alike(Kept(live, lost), v)
  {
    hide ClipFailures, ClipOps, ClipIdem, Loadable, ShortRecord, Idempotency.SameVisible;
    AlikeFits(live, v);
    FailuresUnclipped(live.failures);
    OpsUnclipped(live.ops);
    IdemUnclipped(live.idem);
    Idempotency.SameVisibleThrough(ClipIdem(live.idem), live.idem, v.idem);
  }

  // ------------------------------------------------- when a crash is not noticed

  /** A run with its calls and iteration orders left out. */
  datatype Shape = ACall | ASave(lost: nat) | ACrash

  function ShapeOf(e: Event): Shape {
    match e
    case Call(_) => ACall
    case Save(_, lost) => ASave(lost)
    case Crash => ACrash
  }

  function ShapesOf(es: seq<Event>): (p: seq<Shape>)
    ensures |p| == |es|
    decreases es
  {
    if es == [] then [] else [ShapeOf(es[0])] + ShapesOf(es[1..])
  }

  ghost predicate RepresentableRun(es: seq<Event>) {
    forall i :: 0 <= i < |es| && es[i].Call? ==> Representable(es[i].call)
  }

  predicate HasCall(p: seq<Shape>) {
    ACall in p
  }

  /** With n calls made and the first k of them kept by the last save: the first call
      that a crash loses and the first call after that crash. */
  function Culprit(p: seq<Shape>, n: nat, k: nat): Option<(nat, nat)>
    decreases p
  {
    if p == [] then None
    else
      match p[0]
      case ACall => Culprit(p[1..], n + 1, k)
      case ASave(lost) => Culprit(p[1..], n, if Whole(lost) then n else 0)
      case ACrash =>
        if k < n then (if HasCall(p[1..]) then Some((k, n)) else None)
        else Culprit(p[1..], n, k)
  }

  /** No call follows a crash that has lost one. */
  predicate Unnoticed(p: seq<Shape>) {
    Culprit(p, 0, 0).None?
  }

  lemma {:induction false} NoCallsNoReplies(live: StoreValue, kept: StoreValue, v: StoreValue, es: seq<Event>)
    requires !HasCall(ShapesOf(es))
    ensures IdealReplies(live, kept, es) == CallReplies(v, CallsOf(es)) == []
    decreases es
  {
    hide Perform, Kept;
    if es != [] {
      assert ShapeOf(es[0]) == ShapesOf(es)[0] && ShapesOf(es)[1..] == ShapesOf(es[1..]);
      match es[0]
      case Call(_) =>
      case Save(_, lost) => NoCallsNoReplies(live, Kept(live, lost), v, es[1..]);
      case Crash => NoCallsNoReplies(kept, kept, v, es[1..]);
    }
  }

  /** The specification beside a run in which nothing crashes: v is its value, n counts
      its calls, and the last save kept the first k of them. */
  ghost predicate Beside(live: StoreValue, kept: StoreValue, v: StoreValue, n: nat, k: nat) {
    && k <= n && Alike(live, v) && Fits(v)
    && (k == n ==> Alike(kept, v)) && (n == 0 ==> Alike(FRESH, v))
  }

  lemma BesideCall(live: StoreValue, kept: StoreValue, v: StoreValue, n: nat, k: nat, c: StoreCall)
    requires Beside(live, kept, v, n, k) && Representable(c)
    ensures Perform(live, c).1 == Perform(v, c).1
    ensures Beside(Perform(live, c).0, kept, Perform(v, c).0, n + 1, k)
  {
    hide Perform, Alike, Fits;
    NoOwnerCall(c);
    AlikeReplies(live, v, c);
    CallFits(v, c);
  }

  lemma NoOwnerCall(c: StoreCall)
    requires Representable(c)
    ensures !c.OnOwner?
  {
  }

  lemma BesideSave(live: StoreValue, kept: StoreValue, v: StoreValue, n: nat, k: nat, lost: nat)
    requires Beside(live, kept, v, n, k)
    ensures Beside(live, Kept(live, lost), v, n, if Whole(lost) then n else 0)
  {
    hide Alike, Fits, Loadable, Reloaded, Whole;
    if Whole(lost) {
      KeptAlike(live, v, lost);
    }
  }

  lemma {:induction false} UnnoticedReplies(
    live: StoreValue, kept: StoreValue, v: StoreValue, es: seq<Event>, n: nat, k: nat)
    requires Beside(live, kept, v, n, k) && RepresentableRun(es) && Culprit(ShapesOf(es), n, k).None?
    ensures IdealReplies(live, kept, es) == CallReplies(v, CallsOf(es))
    decreases es
  {
    hide Perform, Kept, Alike, Fits, Representable, Whole, HasCall;
    if es != [] {
      assert ShapesOf(es)[1..] == ShapesOf(es[1..]);
      match es[0]
      case Call(c) =>
        BesideCall(live, kept, v, n, k, c);
        UnnoticedReplies(Perform(live, c).0, kept, Perform(v, c).0, es[1..], n + 1, k);
        assert ([c] + CallsOf(es[1..]))[1..] == CallsOf(es[1..]);
      case Save(_, lost) =>
        BesideSave(live, kept, v, n, k, lost);
        UnnoticedReplies(live, Kept(live, lost), v, es[1..], n, if Whole(lost) then n else 0);
      case Crash =>
        if k < n {
          NoCallsNoReplies(kept, kept, v, es[1..]);
        } else {
          UnnoticedReplies(kept, kept, v, es[1..], n, k);
        }
    }
  }

  /** Crash transparency: when no call follows a crash that has lost one, every call
      answers what it would have answered had nothing crashed. */
  lemma SavedCrashesAreTransparent(es: seq<Event>)
    requires Feasible(START, es) && RepresentableRun(es) && Unnoticed(ShapesOf(es))
    ensures Replies(START, es) == CallReplies(FRESH, CallsOf(es))
  {
    hide Feasible, Replies, IdealReplies, CallReplies, ShapesOf, Fits, Culprit, Alike;
    CrashGoesBackToLastSave(es);
    FreshFits();
    AlikeSelf(FRESH);
    UnnoticedReplies(FRESH, FRESH, FRESH, es, 0, 0);
  }

  lemma FreshFits()
    ensures Fits(FRESH) && Countable(FRESH) && Enumerates(Orders([], [], []), FRESH)
  {
  }

  // ---------------------------------------------------- and when it can be noticed

  const KEY := Idempotency.Key(1, 1)
  const BEGIN := OnIdem(Idempotency.Begin(KEY, 0, UNSET))

  /** The calls that show it: one begin that is lost and the same begin after the
      crash; all others only look. */
  function Filler(n: nat, culprit: (nat, nat)): StoreCall {
    if n == culprit.0 || n == culprit.1 then BEGIN else PriorResult(KEY)
  }

  ghost predicate Filled(es: seq<Event>, n: nat, culprit: (nat, nat))
    decreases es
  {
    if es == [] then true
    else if es[0].Call? then es[0].call == Filler(n, culprit) && Filled(es[1..], n + 1, culprit)
    else Filled(es[1..], n, culprit)
  }

  /** Nothing but a begun entry of the key. */
  ghost predicate Begun(v: StoreValue, begun: bool) {
    && v.failures == map[] && v.ops == map[]
    && (if begun then v.idem.Keys == {KEY} && v.idem[KEY].hash == 0
                      && v.idem[KEY].state == Idempotency.IN_PROGRESS && v.idem[KEY].metadata == []
        else v.idem == map[])
  }

  lemma BegunAnswers(v: StoreValue, begun: bool)
    requires Begun(v, begun)
    ensures Begun(Perform(v, BEGIN).0, true) && Perform(v, PriorResult(KEY)).0 == v
    ensures Perform(v, BEGIN).1
            == Answered(Some(if begun then Idempotency.IN_PROGRESS_REPLAY else Idempotency.NEW))
  {
  }

  lemma BegunReloads(v: StoreValue, begun: bool, lost: nat)
    requires Begun(v, begun)
    ensures Begun(Kept(v, lost), begun && Whole(lost))
  {
  }

  lemma FillerIsFine(n: nat, culprit: (nat, nat))
    ensures Representable(Filler(n, culprit)) && Sizeable(Filler(n, culprit))
  {
    hide Sizeable;
    RepresentableIsSizeable(Filler(n, culprit));
  }

  /** Some order in which a save can go through such a store. */
  lemma BegunOrders(v: StoreValue, begun: bool) returns (o: Orders)
    requires Begun(v, begun)
    ensures Enumerates(o, v) && Countable(v)
  {
    o := Orders([], [], if begun then [KEY] else []);
    assert |v.idem| == |v.idem.Keys|;
  }

  /** Every shape has a feasible run made of those calls. */
  lemma {:induction false} FillRun(
    m: Machine, live: StoreValue, lb: bool, kept: StoreValue, kb: bool, p: seq<Shape>, n: nat, culprit: (nat, nat))
    returns (es: seq<Event>)
    requires Follows(m, live, kept) && Begun(live, lb) && Begun(kept, kb)
    ensures ShapesOf(es) == p && Feasible(m, es) && RepresentableRun(es) && Filled(es, n, culprit)
    decreases p
  {
    hide Follows, Begun, Perform, Representable, Sizeable, Filler, Restarted, FileAfter, Countable, Enumerates, Kept, Whole;
    es := [];
    if p != [] {
      var e, rest;
      match p[0] {
        case ACall =>
          var c := Filler(n, culprit);
          e := Call(c);
          FillerIsFine(n, culprit);
          CallFollows(m, live, kept, c);
          var lb' := FillerBegins(live, lb, n, culprit);
          rest := FillRun(Next(m, e), Perform(live, c).0, lb', kept, kb, p[1..], n + 1, culprit);
        case ASave(lost) =>
          var o := BegunOrders(live, lb);
          e := Save(o, lost);
          FollowsLive(m, live, kept);
          SaveFollows(m, live, kept, o, lost);
          BegunReloads(live, lb, lost);
          rest := FillRun(Next(m, e), live, lb, Kept(live, lost), lb && Whole(lost), p[1..], n, culprit);
        case ACrash =>
          e := Crash;
          CrashFollows(m, live, kept);
          rest := FillRun(Next(m, e), kept, kb, kept, kb, p[1..], n, culprit);
      }
      es := [e] + rest;
      assert es[1..] == rest;
    }
  }

  lemma FollowsLive(m: Machine, live: StoreValue, kept: StoreValue)
    requires Follows(m, live, kept)
    ensures m.live == live
  {
  }

  lemma CallFollows(m: Machine, live: StoreValue, kept: StoreValue, c: StoreCall)
    requires Follows(m, live, kept) && Sizeable(c)
    ensures Follows(Next(m, Call(c)), Perform(live, c).0, kept)
  {
    hide Perform, Sound, Sizeable, Restarted;
    PerformSound(live, c);
  }

  lemma CrashFollows(m: Machine, live: StoreValue, kept: StoreValue)
    requires Follows(m, live, kept)
    ensures Follows(Next(m, Crash), kept, kept)
  {
    hide Sound, Restarted;
  }

  lemma FillerBegins(v: StoreValue, begun: bool, n: nat, culprit: (nat, nat)) returns (after: bool)
    requires Begun(v, begun)
    ensures Begun(Perform(v, Filler(n, culprit)).0, after)
    ensures after == (begun || n == culprit.0 || n == culprit.1)
  {
    hide Begun, Perform;
    BegunAnswers(v, begun);
    after := begun || n == culprit.0 || n == culprit.1;
  }

  /** After the crash the lost begin is new again; without it, it is a replay. */
  lemma {:induction false} LossShows(
    live: StoreValue, kept: StoreValue, v: StoreValue, es: seq<Event>, n: nat, culprit: (nat, nat))
    requires Begun(live, false) && Begun(kept, false) && Begun(v, true)
    requires n == culprit.1 && Filled(es, n, culprit) && HasCall(ShapesOf(es))
    ensures IdealReplies(live, kept, es) != CallReplies(v, CallsOf(es))
    decreases es
  {
    hide Begun, Perform, Kept, Whole;
    assert ShapesOf(es)[1..] == ShapesOf(es[1..]);
    match es[0]
    case Call(c) =>
      BegunAnswers(live, false);
      BegunAnswers(v, true);
      assert IdealReplies(live, kept, es)[0] == Perform(live, BEGIN).1;
      assert CallReplies(v, CallsOf(es))[0] == Perform(v, BEGIN).1;
    case Save(_, lost) =>
      BegunReloads(live, false, lost);
      LossShows(live, Kept(live, lost), v, es[1..], n, culprit);
    case Crash =>
      LossShows(kept, kept, v, es[1..], n, culprit);
  }

  lemma {:induction false} CulpritBounds(p: seq<Shape>, n: nat, k: nat)
    requires k <= n && Culprit(p, n, k).Some?
    ensures Culprit(p, n, k).value.0 < Culprit(p, n, k).value.1 && n <= Culprit(p, n, k).value.1
    decreases p
  {
    hide Whole, HasCall;
    match p[0]
    case ACall => CulpritBounds(p[1..], n + 1, k);
    case ASave(lost) => CulpritBounds(p[1..], n, if Whole(lost) then n else 0);
    case ACrash =>
      if k == n {
        CulpritBounds(p[1..], n, k);
      }
  }

  lemma {:induction false} CulpritShows(
    live: StoreValue, kept: StoreValue, v: StoreValue, es: seq<Event>, n: nat, k: nat, culprit: (nat, nat))
    requires k <= n && Culprit(ShapesOf(es), n, k) == Some(culprit) && Filled(es, n, culprit)
    requires Begun(live, culprit.0 < n) && Begun(v, culprit.0 < n) && Begun(kept, culprit.0 < k)
    ensures IdealReplies(live, kept, es) != CallReplies(v, CallsOf(es))
    decreases es
  {
    hide Begun, Perform, Kept, Whole, HasCall, Filler;
    CulpritBounds(ShapesOf(es), n, k);
    assert ShapesOf(es)[1..] == ShapesOf(es[1..]);
    match es[0]
    case Call(c) =>
      CulpritBounds(ShapesOf(es[1..]), n + 1, k);
      var _ := FillerBegins(live, culprit.0 < n, n, culprit);
      var _ := FillerBegins(v, culprit.0 < n, n, culprit);
      CulpritShows(Perform(live, c).0, kept, Perform(v, c).0, es[1..], n + 1, k, culprit);
      CallShows(live, kept, v, es);
    case Save(_, lost) =>
      BegunReloads(live, culprit.0 < n, lost);
      CulpritShows(live, Kept(live, lost), v, es[1..], n, if Whole(lost) then n else 0, culprit);
    case Crash =>
      if k < n {
        LossShows(kept, kept, v, es[1..], n, culprit);
      } else {
        CulpritShows(kept, kept, v, es[1..], n, k, culprit);
      }
  }

  lemma CallShows(live: StoreValue, kept: StoreValue, v: StoreValue, es: seq<Event>)
    requires es != [] && es[0].Call?
    requires var c := es[0].call;
             IdealReplies(Perform(live, c).0, kept, es[1..]) != CallReplies(Perform(v, c).0, CallsOf(es[1..]))
    ensures IdealReplies(live, kept, es) != CallReplies(v, CallsOf(es))
  {
    hide Perform, Kept;
    var c := es[0].call;
    assert ([c] + CallsOf(es[1..]))[1..] == CallsOf(es[1..]);
    assert IdealReplies(live, kept, es)[1..] == IdealReplies(Perform(live, c).0, kept, es[1..]);
    assert CallReplies(v, CallsOf(es))[1..] == CallReplies(Perform(v, c).0, CallsOf(es[1..]));
  }

  /** Exactly when crashes are transparent: for a given order of calls, saves and
      crashes, every run of that shape with representable calls answers as if nothing
      had crashed if and only if no call follows a crash that has lost one. */
  lemma TransparentExactly(p: seq<Shape>)
    ensures (forall es :: ShapesOf(es) == p && Feasible(START, es) && RepresentableRun(es) ==>
                            Replies(START, es) == CallReplies(FRESH, CallsOf(es)))
            <==> Unnoticed(p)
  {
    hide Feasible, Replies, CallReplies, ShapesOf, RepresentableRun, IdealReplies, Begun, Culprit, Filled;
    if Unnoticed(p) {
      forall es | ShapesOf(es) == p && Feasible(START, es) && RepresentableRun(es)
        ensures Replies(START, es) == CallReplies(FRESH, CallsOf(es))
      {
        SavedCrashesAreTransparent(es);
      }
    } else {
      var culprit := Culprit(p, 0, 0).value;
      StartFollows();
      FreshBegun();
      var es := FillRun(START, FRESH, false, FRESH, false, p, 0, culprit);
      CulpritShows(FRESH, FRESH, FRESH, es, 0, 0, culprit);
      CrashGoesBackToLastSave(es);
    }
  }

  lemma FreshBegun()
    ensures Begun(FRESH, false)
  {
  }
}

/** What a refused load does to the recovery ownership. The header promises that a
    failed load leaves the store untouched; for the three tables that holds, for
    the ownership only while somebody holds it. */
module FailedLoads {
  import opened Bytes
  import opened Codec
  import opened Frames
  import opened FailureRecords
  import opened Snapshot
  import opened SnapshotPayloads
  import opened SnapshotLaws
  import Ownership

  /** The ownership a scan ends with, whether it got through or not. */
  function Left(p: Progress): Ownership.Holder {
    match p
    case Going(st) => st.own
    case Refused(own) => own
  }

  /** An ownership frame that an unassigned ownership adopts. */
  predicate Grants(f: Frame) {
    && f.kind == K_OWN && ParseHolder(f.payload).Some?
    && var h := ParseHolder(f.payload).value.0; h.owner != Ownership.NONE && h.generation != 0
  }

  lemma AbsorbOwn(st: Partial, f: Frame)
    ensures st.own.owner != Ownership.NONE || st.first || !Grants(f) ==> Left(Absorb(st, f)) == st.own
    ensures st.own.owner == Ownership.NONE && !st.first && Grants(f) ==>
              Absorb(st, f).Going? && Absorb(st, f).st.own.owner != Ownership.NONE
    ensures Absorb(st, f).Going? ==> !Absorb(st, f).st.first
  {
    hide ParseCounts, ParseRecord, ParseOp, ParseView, ParseHolder;
  }

  lemma {:induction false} HeldThroughScan(s: seq<byte>, st: Partial)
    requires st.own.owner != Ownership.NONE
    ensures Left(Scan(s, st)) == st.own
    decreases |s|
  {
    hide Absorb, ParseFrame;
    if s != [] && ParseFrame(s).Some? {
      var (f, rest) := ParseFrame(s).value;
      FrameSpells(s);
      AbsorbOwn(st, f);
      if Absorb(st, f).Going? {
        HeldThroughScan(rest, Absorb(st, f).st);
      }
    }
  }

  lemma LeftByLoad(data: seq<byte>, own: Ownership.Holder)
    requires LoadBytes(data, own).Rejected?
    ensures LoadBytes(data, own).own == Left(Scan(data, Begin(own)))
  {
    hide FailureMap, OpTable, EntryMap, ParseFrame, Absorb;
  }

  /** Held ownership survives every refused load. */
  lemma HeldOwnershipSurvives(data: seq<byte>, own: Ownership.Holder)
    requires own.owner != Ownership.NONE && LoadBytes(data, own).Rejected?
    ensures LoadBytes(data, own).own == own
  {
    hide Scan, LoadBytes;
    LeftByLoad(data, own);
    HeldThroughScan(data, Begin(own));
  }

  /** A header that announces one failure, and then nothing but an ownership frame. */
  const INTRUDER := Ownership.Holder(0, 1, 0)

  function ShortFile(): seq<byte> {
    ConcatFrames([Frame(K_HEADER, CountsBytes(1, 0, 0)), Frame(K_OWN, HolderBytes(INTRUDER))])
  }

  /** Loading that file fails, and leaves an unassigned ownership assigned. */
  lemma RefusedLoadAdopts(own: Ownership.Holder)
    requires own.owner == Ownership.NONE
    ensures LoadBytes(ShortFile(), own) == Rejected(INTRUDER)
  {
    hide ConcatFrames, LoadBytes, CountsBytes, HolderBytes, ParseCounts, ParseHolder, FailureMap, OpTable, EntryMap;
    var header, owner := Frame(K_HEADER, CountsBytes(1, 0, 0)), Frame(K_OWN, HolderBytes(INTRUDER));
    CountsRead(1, 0, 0);
    HolderRead(INTRUDER);
    LoadFrames([header, owner], own);
    FoldNothing(Begin(own));
    FoldLast(Begin(own), [], header);
    FoldLast(Begin(own), [header], owner);
    assert [] + [header] == [header] && [header] + [owner] == [header, owner];
  }

  /** Refused loads leave the ownership untouched, whatever the file, exactly when
      somebody holds it before the call. */
  lemma RefusedLoadsHarmlessIffHeld(own: Ownership.Holder)
    ensures (forall data :: LoadBytes(data, own).Rejected? ==> LoadBytes(data, own).own == own)
            <==> own.owner != Ownership.NONE
  {
    hide LoadBytes;
    if own.owner != Ownership.NONE {
      forall data | LoadBytes(data, own).Rejected? ensures LoadBytes(data, own).own == own {
        HeldOwnershipSurvives(data, own);
      }
    } else {
      RefusedLoadAdopts(own);
      assert INTRUDER != own;
      assert LoadBytes(ShortFile(), own).own != own;
    }
  }

  // --------------------------------------- file by file, for unassigned ownership

  /** The first frames of the file that are accepted, a grant behind the header among them. */
  ghost predicate AcceptedGrant(data: seq<byte>, fs: seq<Frame>, t: seq<byte>, st: Partial) {
    && AllSized(fs) && data == ConcatFrames(fs) + t
    && Fold(st, fs).Going?
    && exists i :: (if st.first then 1 else 0) <= i < |fs| && Grants(fs[i])
  }

  lemma {:induction false} FoldOwn(st: Partial, fs: seq<Frame>)
    requires st.own.owner == Ownership.NONE && Fold(st, fs).Going?
    ensures Fold(st, fs).st.first <==> st.first && fs == []
    ensures if exists i :: (if st.first then 1 else 0) <= i < |fs| && Grants(fs[i])
            then Fold(st, fs).st.own.owner != Ownership.NONE
            else Fold(st, fs).st.own == st.own
  {
    hide Absorb, Grants;
    if fs != [] {
      var n := |fs| - 1;
      var front := fs[..n];
      FoldOwn(st, front);
      AbsorbOwn(Fold(st, front).st, fs[n]);
      if i :| (if st.first then 1 else 0) <= i < |fs| && Grants(fs[i]) && i < n {
        assert Grants(front[i]);
      }
    }
  }

  /** The frames a scan gets through. */
  lemma {:induction false} ScanReads(s: seq<byte>, st: Partial) returns (fs: seq<Frame>, t: seq<byte>)
    ensures AllSized(fs) && s == ConcatFrames(fs) + t
    ensures Fold(st, fs).Going? && Fold(st, fs).st.own == Left(Scan(s, st))
    decreases |s|
  {
    hide Absorb, ParseFrame, FrameBytes, ConcatFrames, Fold;
    fs, t := [], s;
    EmptyFrames();
    FoldNothing(st);
    if s != [] && ParseFrame(s).Some? {
      var (f, rest) := ParseFrame(s).value;
      FrameSpells(s);
      AbsorbOwn(st, f);
      if Absorb(st, f).Going? {
        var gs;
        gs, t := ScanReads(rest, Absorb(st, f).st);
        fs := [f] + gs;
        ConcatFirst(f, gs);
        Concat(FrameBytes(f), ConcatFrames(gs), t);
        FoldAppend(st, [f], gs);
        FoldLast(st, [], f);
        assert [] + [f] == [f];
      } else {
        RefusedUnchanged(st, f);
      }
    }
  }

  lemma RefusedUnchanged(st: Partial, f: Frame)
    requires Absorb(st, f).Refused?
    ensures Absorb(st, f).own == st.own
  {
    hide ParseCounts, ParseRecord, ParseOp, ParseView, ParseHolder;
  }

  /** For an unassigned ownership, a refused load changes it exactly when a grant
      stands among the frames that were accepted before the file was refused. */
  lemma RefusedLoadChangesOnly(data: seq<byte>, own: Ownership.Holder)
    requires own.owner == Ownership.NONE && LoadBytes(data, own).Rejected?
    ensures LoadBytes(data, own).own != own <==> exists fs, t :: AcceptedGrant(data, fs, t, Begin(own))
  {
    hide Scan, Fold, Grants, ConcatFrames, LoadBytes, AllSized;
    LeftByLoad(data, own);
    var st := Begin(own);
    var fs, t := ScanReads(data, st);
    FoldOwn(st, fs);
    if LoadBytes(data, own).own != own {
      assert AcceptedGrant(data, fs, t, st);
    }
    if gs, u :| AcceptedGrant(data, gs, u, st) {
      FoldOwn(st, gs);
      ScanFrames(gs, u, st);
      HeldThroughScan(u, Fold(st, gs).st);
    }
  }
}

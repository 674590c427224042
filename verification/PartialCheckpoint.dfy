/** Checkpoints that keep frames: what recovery makes of the rewritten log, and
    what readers notice of a torn block. */
module PartialCheckpoints {
  import opened Options
  import opened Bytes
  import opened Files
  import opened Metadata
  import opened WalLog
  import opened WalState
  import opened Checkpointing
  import opened Recovery

  /* ---- recovery after a partial checkpoint ---- */

  ghost function MarkerIn(s: Store, b: BlockID): nat
    requires Indexed(s) && b in s.index
  {
    IndexedAt(s, b);
    FrameAt(s.wal, s.bs, s.slots[s.index[b]]).marker
  }

  ghost predicate FramesIntact(s: Store, crc: Checksum)
    requires Indexed(s)
  {
    forall b :: b in s.index ==> Holds(s, s.index[b], b) && Intact(FrameAt(s.wal, s.bs, s.slots[s.index[b]]), crc)
  }

  /** What opens after a checkpoint that was followed by a crash. */
  ghost function Reopened(s: Store, gate: WalID, moved: seq<BlockID>, kept: seq<BlockID>, nextBlock: BlockID,
                          crc: Checksum): Store
    requires Indexed(s) && Splits(s, gate, moved, kept)
  {
    var s' := Checkpointed(s, gate, moved, kept, crc);
    Recovered(s.bs, s'.main, s'.wal, nextBlock, crc)
  }

  /** The log holds the first n kept frames from its start, and no valid frame
      behind them. */
  ghost predicate HoldsKept(s: Store, kept: seq<BlockID>, n: nat, wal: Bytes, crc: Checksum)
    requires Indexed(s) && n <= |kept| && forall i :: 0 <= i < |kept| ==> kept[i] in s.index
  {
    && (forall i :: 0 <= i < n ==>
          && Holds(s, s.index[kept[i]], kept[i]) && Full(wal, s.bs, i)
          && FrameAt(wal, s.bs, i) == FrameAt(s.wal, s.bs, s.slots[s.index[kept[i]]]))
    && !(Full(wal, s.bs, n) && Intact(FrameAt(wal, s.bs, n), crc))
  }

  /** Recovery keeps those up to the last one that carries a commit marker: their
      blocks read from the log, all others from main. */
  lemma KeptPrefixReads(s: Store, kept: seq<BlockID>, n: nat, main: Bytes, wal: Bytes, nextBlock: BlockID,
                        crc: Checksum)
    requires Indexed(s) && FramesIntact(s, crc) && n <= |kept| && forall i :: 0 <= i < |kept| ==> kept[i] in s.index
    requires HoldsKept(s, kept, n, wal, crc)
    ensures var r := Recovered(s.bs, main, wal, nextBlock, crc);
      && Indexed(r) && r.end <= n
      && (r.end > 0 ==> MarkerIn(s, kept[r.end - 1]) != 0)
      && (forall i :: r.end <= i < n ==> MarkerIn(s, kept[i]) == 0)
      && (forall b :: b in kept[..r.end] ==> b in s.index)
      && (forall b :: Read(r, b, r.maxID) ==
            if b in kept[..r.end] then Some(WalRead(s, b)) else MainRead(main, s.bs, b))
  {
    hide FrameAt, Full, CommittedUpTo, MainRead;
    var r := Recovered(s.bs, main, wal, nextBlock, crc);
    ValidFromIs(wal, s.bs, crc, n);
    assert r.end <= n;
    KeptPrefix(s, kept, n, wal, crc);
    forall b
      ensures b in r.index <==> b in kept[..r.end]
      ensures b in r.index ==> b in s.index && 0 <= b < TWO_63 && Holds(r, r.index[b], b)
      ensures b in r.index ==> FrameAt(r.wal, s.bs, r.slots[r.index[b]]).payload == WalRead(s, b)
    {
      LogIndexHolds(wal, s.bs, r.end, b);
      LogIndexNames(wal, s.bs, r.end, kept, b);
      if b in r.index {
        assert kept[r.index[b]] == b;
        IndexedAt(s, b);
      }
    }
    EndInside(wal, s.bs, r.end);
    assert Indexed(r);
  }

  lemma KeptPrefix(s: Store, kept: seq<BlockID>, n: nat, wal: Bytes, crc: Checksum)
    requires Indexed(s) && n <= |kept| && forall i :: 0 <= i < |kept| ==> kept[i] in s.index
    requires HoldsKept(s, kept, n, wal, crc)
    ensures forall i :: 0 <= i < n ==>
      Full(wal, s.bs, i) && FrameAt(wal, s.bs, i).id == kept[i] && FrameAt(wal, s.bs, i).marker == MarkerIn(s, kept[i])
  {
    hide FrameAt, Full;
    forall i | 0 <= i < n
      ensures FrameAt(wal, s.bs, i).id == kept[i] && FrameAt(wal, s.bs, i).marker == MarkerIn(s, kept[i])
    {
      IndexedAt(s, kept[i]);
    }
  }

  /** The kept frames after the last one that carries a commit marker are lost:
      exactly the blocks among them that main has otherwise read otherwise. */
  lemma PartialCheckpointReads(s: Store, gate: WalID, moved: seq<BlockID>, kept: seq<BlockID>,
                               nextBlock: BlockID, crc: Checksum)
    requires Indexed(s) && Splits(s, gate, moved, kept) && FramesIntact(s, crc)
    ensures var s', r := Checkpointed(s, gate, moved, kept, crc), Reopened(s, gate, moved, kept, nextBlock, crc);
      && Indexed(s') && Indexed(r) && r.end <= |kept|
      && (r.end > 0 ==> MarkerIn(s, kept[r.end - 1]) != 0)
      && (forall i :: r.end <= i < |kept| ==> MarkerIn(s, kept[i]) == 0)
      && (forall b :: Read(r, b, r.maxID) ==
            if b in kept && b !in kept[..r.end] then MainRead(s'.main, s.bs, b) else Read(s', b, s'.maxID))
      && (forall b :: b in kept ==> Read(s', b, s'.maxID) == Some(WalRead(s, b)))
  {
    hide FrameAt, Full, Moved, KeptWal, KeptSlots, MainRead, Bumped, Recovered, FramesIntact;
    var s', r := Checkpointed(s, gate, moved, kept, crc), Reopened(s, gate, moved, kept, nextBlock, crc);
    KeptLog(s, kept);
    KeptPrefixReads(s, kept, |kept|, s'.main, s'.wal, nextBlock, crc);
    CheckpointIndexed(s, gate, moved, kept, crc);
    KeptIDs(s, gate, moved, kept);
    SplitsListed(s, gate, moved, kept);
    forall b
      ensures b in kept ==> Read(s', b, s'.maxID) == Some(WalRead(s, b))
      ensures b !in kept ==> b !in s'.index
      ensures b in kept[..r.end] ==> b in kept
    {
      if b in kept {
        IndexedAt(s, b);
      }
      if b in kept[..r.end] {
        var i :| 0 <= i < r.end && kept[..r.end][i] == b;
        assert kept[i] == b;
      }
    }
  }

  /* ---- a crash while the log is rewritten ---- */

  lemma {:induction false} RewrittenRest(s: Store, kept: seq<BlockID>, k: nat, j: nat)
    requires Indexed(s) && k <= |kept| && forall i :: 0 <= i < |kept| ==> kept[i] in s.index
    requires k <= j
    ensures Full(KeptWal(s, kept, k), s.bs, j) <==> Full(s.wal, s.bs, j)
    ensures Full(s.wal, s.bs, j) ==> FrameAt(KeptWal(s, kept, k), s.bs, j) == FrameAt(s.wal, s.bs, j)
  {
    hide Indexed, FrameOf, SlotBytes, Off;
    if k > 0 {
      RewrittenRest(s, kept, k - 1, j);
      KeptFrames(s, kept, k - 1);
      KeptSize(s, kept[k - 1]);
      SlotEnds(k - 1, FrameSize(s.bs));
      OtherSlots(KeptWal(s, kept, k - 1), s.bs, k - 1, Off(k - 1, FrameSize(s.bs)), SlotBytes(s, kept[k - 1]), j);
    }
  }

  lemma SlotEnds(j: nat, size: nat)
    ensures Off(j + 1, size) == Off(j, size) + size
  {
  }

  lemma RewrittenLog(s: Store, kept: seq<BlockID>, k: nat, crc: Checksum)
    requires Settled(s, crc) && k <= |kept| && forall i :: 0 <= i < |kept| ==> kept[i] in s.index
    requires k < s.end
    ensures LogOk(KeptWal(s, kept, k), s.bs, s.end, crc)
    ensures var w := KeptWal(s, kept, k);
      && (forall j :: k <= j < s.end ==>
          Full(s.wal, s.bs, j) && Full(w, s.bs, j) && FrameAt(w, s.bs, j) == FrameAt(s.wal, s.bs, j))
      && (forall i :: 0 <= i < k ==>
            Full(w, s.bs, i) && FrameAt(w, s.bs, i).id == kept[i] && FrameAt(w, s.bs, i).payload == WalRead(s, kept[i]))
  {
    hide FrameOf, FrameAt, Full, KeptWal, TornAt, IndexIsLog;
    var w := KeptWal(s, kept, k);
    KeptFrames(s, kept, k);
    SettledFrames(s, crc);
    forall i | 0 <= i < k
      ensures Full(w, s.bs, i) && FrameAt(w, s.bs, i) == FrameAt(s.wal, s.bs, s.slots[s.index[kept[i]]])
      ensures Holds(s, s.index[kept[i]], kept[i]) && 0 <= kept[i] < TWO_63
    {
      IndexedAt(s, kept[i]);
      SlotFrame(s, kept[i]);
    }
    forall j | k <= j
      ensures Full(w, s.bs, j) <==> Full(s.wal, s.bs, j)
      ensures Full(s.wal, s.bs, j) ==> FrameAt(w, s.bs, j) == FrameAt(s.wal, s.bs, j)
    {
      RewrittenRest(s, kept, k, j);
    }
    FullLength(w, s.bs, s.end - 1);
  }

  lemma SlotFrame(s: Store, b: BlockID)
    requires Indexed(s) && b in s.index && Holds(s, s.index[b], b)
    ensures FrameOf(SlotBytes(s, b)) == FrameAt(s.wal, s.bs, s.slots[s.index[b]])
  {
    hide FrameOf;
  }

  lemma {:induction false} MixedIndex(wal: Bytes, wal': Bytes, bs: nat, k: nat, n: nat, b: BlockID)
    requires k <= n && forall j :: 0 <= j < n ==> Full(wal, bs, j) && Full(wal', bs, j)
    requires forall j :: k <= j < n ==> FrameAt(wal', bs, j) == FrameAt(wal, bs, j)
    ensures var m, m' := LogIndex(wal, bs, n), LogIndex(wal', bs, n);
      if b in m && k <= m[b] then b in m' && m'[b] == m[b]
      else (b in m' <==> b in LogIndex(wal', bs, k)) && (b in m' ==> m'[b] == LogIndex(wal', bs, k)[b])
  {
    hide FrameAt, Full;
    if k < n {
      MixedIndex(wal, wal', bs, k, n - 1, b);
    } else {
      LogIndexHolds(wal, bs, n, b);
    }
  }

  /** A crash between two frames of the rewriting: a block still reads from the
      log if its kept frame was rewritten, or its newest one lay behind those
      rewritten so far; all others read from main. So a kept frame that others
      were written over before its turn is lost. */
  lemma CrashInRewrite(s: Store, kept: seq<BlockID>, k: nat, main: Bytes, nextBlock: BlockID, crc: Checksum)
    requires Settled(s, crc) && k <= |kept| && k < s.end && forall i :: 0 <= i < |kept| ==> kept[i] in s.index
    ensures var r := Recovered(s.bs, main, KeptWal(s, kept, k), nextBlock, crc);
      && Indexed(r)
      && (forall b :: b in kept[..k] ==> b in s.index)
      && (forall b :: Read(r, b, r.maxID) ==
            if b in kept[..k] || (b in s.index && k <= s.slots[s.index[b]]) then Some(WalRead(s, b))
            else MainRead(main, s.bs, b))
  {
    hide FrameAt, Full, KeptWal, TornAt, MainRead, LogOk, CommittedUpTo;
    var w := KeptWal(s, kept, k);
    var r := Recovered(s.bs, main, w, nextBlock, crc);
    RewrittenLog(s, kept, k, crc);
    RecoveryStops(w, s.bs, s.end, crc);
    OpenedIndexed(s.bs, main, w, s.end, nextBlock, crc);
    SettledFrames(s, crc);
    forall b
      ensures b in kept[..k] ==> b in s.index
      ensures Read(r, b, r.maxID) ==
        if b in kept[..k] || (b in s.index && k <= s.slots[s.index[b]]) then Some(WalRead(s, b))
        else MainRead(main, s.bs, b)
    {
      MixedIndex(s.wal, w, s.bs, k, s.end, b);
      LogIndexNames(w, s.bs, k, kept, b);
      LogIndexHolds(w, s.bs, k, b);
      LogIndexHolds(s.wal, s.bs, s.end, b);
      if b in LogIndex(w, s.bs, k) {
        assert kept[LogIndex(w, s.bs, k)[b]] == b;
      }
    }
  }

  /** A crash inside a frame of the rewriting that leaves its slot invalid: only
      the kept frames before it, up to the last marked one, are found. */
  lemma CrashInFrame(s: Store, kept: seq<BlockID>, k: nat, part: Bytes, main: Bytes, nextBlock: BlockID, crc: Checksum)
    requires Settled(s, crc) && k < |kept| && forall i :: 0 <= i < |kept| ==> kept[i] in s.index
    requires |part| <= FrameSize(s.bs)
    requires var w := Written(KeptWal(s, kept, k), Off(k, FrameSize(s.bs)), part);
      !(Full(w, s.bs, k) && Intact(FrameAt(w, s.bs, k), crc))
    ensures var r := Recovered(s.bs, main, Written(KeptWal(s, kept, k), Off(k, FrameSize(s.bs)), part), nextBlock, crc);
      && Indexed(r) && r.end <= k && (forall i :: r.end <= i < k ==> MarkerIn(s, kept[i]) == 0)
      && (forall b :: b in kept[..r.end] ==> b in s.index)
      && (forall b :: Read(r, b, r.maxID) ==
            if b in kept[..r.end] then Some(WalRead(s, b)) else MainRead(main, s.bs, b))
  {
    hide FrameAt, FrameOf, Full, KeptWal, MainRead, Recovered, FramesIntact, MarkerIn, Written;
    var w := Written(KeptWal(s, kept, k), Off(k, FrameSize(s.bs)), part);
    SettledIntact(s, crc);
    KeptFrames(s, kept, k);
    forall i | 0 <= i < k
      ensures Holds(s, s.index[kept[i]], kept[i]) && Full(w, s.bs, i)
      ensures FrameAt(w, s.bs, i) == FrameAt(s.wal, s.bs, s.slots[s.index[kept[i]]])
    {
      IndexedAt(s, kept[i]);
      SlotFrame(s, kept[i]);
      OtherSlots(KeptWal(s, kept, k), s.bs, k, Off(k, FrameSize(s.bs)), part, i);
    }
    KeptPrefixReads(s, kept, k, main, w, nextBlock, crc);
  }

  lemma EndInside(wal: Bytes, bs: nat, n: nat)
    requires forall i :: 0 <= i < n ==> Full(wal, bs, i)
    ensures Off(n, FrameSize(bs)) <= |wal|
  {
    if n > 0 {
      FullLength(wal, bs, n - 1);
    }
  }

  lemma KeptIDs(s: Store, gate: WalID, moved: seq<BlockID>, kept: seq<BlockID>)
    requires Splits(s, gate, moved, kept)
    ensures forall b :: b in kept <==> b in s.index && gate <= s.index[b]
  {
    forall b | b in kept
      ensures b in s.index
    {
      var i :| 0 <= i < |kept| && kept[i] == b;
    }
  }

  lemma {:induction false} LogIndexNames(wal: Bytes, bs: nat, n: nat, ids: seq<BlockID>, b: BlockID)
    requires n <= |ids| && forall i :: 0 <= i < n ==> Full(wal, bs, i) && FrameAt(wal, bs, i).id == ids[i]
    ensures b in LogIndex(wal, bs, n) <==> b in ids[..n]
  {
    if n > 0 {
      LogIndexNames(wal, bs, n - 1, ids, b);
      assert ids[..n] == ids[..n - 1] + [ids[n - 1]];
    }
  }

  /** Recovery finds every kept frame again exactly when the frame that happened
      to be written last carries a commit marker. */
  lemma PartialCheckpointRecovers(s: Store, gate: WalID, moved: seq<BlockID>, kept: seq<BlockID>, nextBlock: BlockID,
                                  crc: Checksum)
    requires Indexed(s) && Splits(s, gate, moved, kept) && FramesIntact(s, crc) && kept != []
    ensures Reopened(s, gate, moved, kept, nextBlock, crc).end == |kept| <==> MarkerIn(s, kept[|kept| - 1]) != 0
    ensures Reopened(s, gate, moved, kept, nextBlock, crc).end == |kept| ==>
      var s', r := Checkpointed(s, gate, moved, kept, crc), Reopened(s, gate, moved, kept, nextBlock, crc);
      Indexed(s') && Indexed(r) && forall b :: Read(r, b, r.maxID) == Read(s', b, s'.maxID)
  {
    hide MarkerIn, Reopened, Checkpointed, Read, Splits, MainRead, FramesIntact;
    PartialCheckpointReads(s, gate, moved, kept, nextBlock, crc);
    assert kept[..|kept|] == kept;
  }

  /** In every order of the map all of them are found exactly when each one
      carries a commit marker. */
  lemma EveryFrameRecovers(s: Store, gate: WalID, moved: seq<BlockID>, some: seq<BlockID>, nextBlock: BlockID,
                           crc: Checksum)
    requires Indexed(s) && Splits(s, gate, moved, some) && FramesIntact(s, crc)
    ensures (forall kept :: Splits(s, gate, moved, kept) && Distinct(kept) ==>
      Reopened(s, gate, moved, kept, nextBlock, crc).end == |kept|) <==>
      (forall b :: b in s.index && gate <= s.index[b] ==> MarkerIn(s, b) != 0)
  {
    hide Reopened, FramesIntact, Distinct, Splits, MarkerIn;
    if forall b :: b in s.index && gate <= s.index[b] ==> MarkerIn(s, b) != 0 {
      forall kept | Splits(s, gate, moved, kept) && Distinct(kept)
        ensures Reopened(s, gate, moved, kept, nextBlock, crc).end == |kept|
      {
        LastMarked(s, gate, moved, kept, nextBlock, crc);
      }
    }
    forall b | b in s.index && gate <= s.index[b] && MarkerIn(s, b) == 0
      ensures var kept := LastOf(s, gate, b);
        Splits(s, gate, moved, kept) && Distinct(kept) && Reopened(s, gate, moved, kept, nextBlock, crc).end != |kept|
    {
      LastOfSplits(s, gate, moved, some, b);
      PartialCheckpointRecovers(s, gate, moved, LastOf(s, gate, b), nextBlock, crc);
    }
  }

  lemma LastMarked(s: Store, gate: WalID, moved: seq<BlockID>, kept: seq<BlockID>, nextBlock: BlockID, crc: Checksum)
    requires Indexed(s) && Splits(s, gate, moved, kept) && FramesIntact(s, crc)
    requires forall b :: b in s.index && gate <= s.index[b] ==> MarkerIn(s, b) != 0
    ensures Reopened(s, gate, moved, kept, nextBlock, crc).end == |kept|
  {
    hide Reopened, FramesIntact, MarkerIn, Splits, Read, Checkpointed, MainRead;
    PartialCheckpointReads(s, gate, moved, kept, nextBlock, crc);
    KeptIDs(s, gate, moved, kept);
    SplitsListed(s, gate, moved, kept);
    if kept != [] {
      assert kept[|kept| - 1] in kept;
      PartialCheckpointRecovers(s, gate, moved, kept, nextBlock, crc);
    }
  }

  ghost predicate Distinct(ids: seq<BlockID>) {
    forall i, j :: 0 <= i < j < |ids| ==> ids[i] != ids[j]
  }

  /** Nobody sees whether the engine crashed after this checkpoint. */
  ghost predicate LosesNothing(s: Store, gate: WalID, moved: seq<BlockID>, kept: seq<BlockID>, nextBlock: BlockID,
                               crc: Checksum)
    requires Indexed(s) && Splits(s, gate, moved, kept)
  {
    var s', r := Checkpointed(s, gate, moved, kept, crc), Reopened(s, gate, moved, kept, nextBlock, crc);
    Indexed(s') && Indexed(r) && forall b :: Read(r, b, r.maxID) == Read(s', b, s'.maxID)
  }

  /** A kept frame that the crash cannot make unreadable, whatever the order. */
  ghost predicate Sure(s: Store, main: Bytes, b: BlockID)
    requires Indexed(s) && b in s.index
  {
    MarkerIn(s, b) != 0 || MainRead(main, s.bs, b) == Some(WalRead(s, b))
  }

  /** The kept frames are written in the order of a map. Reads survive a crash
      in every order exactly when every kept frame carries a commit marker or is
      what main has anyway. */
  lemma PartialCheckpointSure(s: Store, gate: WalID, moved: seq<BlockID>, some: seq<BlockID>, nextBlock: BlockID,
                              crc: Checksum)
    requires Indexed(s) && Splits(s, gate, moved, some) && FramesIntact(s, crc)
    ensures (forall kept :: Splits(s, gate, moved, kept) && Distinct(kept) ==>
      LosesNothing(s, gate, moved, kept, nextBlock, crc)) <==>
      (forall b :: b in s.index && gate <= s.index[b] ==> Sure(s, Bumped(Moved(s, moved), crc), b))
  {
    hide Reopened, Moved, KeptWal, KeptSlots, Bumped, FramesIntact, Distinct, Splits, Read, LosesNothing, Sure;
    SplitsListed(s, gate, moved, some);
    var main := Bumped(Moved(s, moved), crc);
    if forall b :: b in s.index && gate <= s.index[b] ==> Sure(s, main, b) {
      forall kept | Splits(s, gate, moved, kept) && Distinct(kept)
        ensures LosesNothing(s, gate, moved, kept, nextBlock, crc)
      {
        AllSureKeeps(s, gate, moved, kept, nextBlock, crc);
      }
    }
    forall b | b in s.index && gate <= s.index[b] && !Sure(s, main, b)
      ensures var kept := LastOf(s, gate, b);
        Splits(s, gate, moved, kept) && Distinct(kept) && !LosesNothing(s, gate, moved, kept, nextBlock, crc)
    {
      LastOfSplits(s, gate, moved, some, b);
      LastIsLost(s, gate, moved, b, nextBlock, crc);
    }
  }

  lemma AllSureKeeps(s: Store, gate: WalID, moved: seq<BlockID>, kept: seq<BlockID>, nextBlock: BlockID, crc: Checksum)
    requires Indexed(s) && Splits(s, gate, moved, kept) && FramesIntact(s, crc)
    requires forall b :: b in s.index && gate <= s.index[b] ==> Sure(s, Bumped(Moved(s, moved), crc), b)
    ensures LosesNothing(s, gate, moved, kept, nextBlock, crc)
  {
    hide Reopened, Moved, KeptWal, KeptSlots, Bumped, FramesIntact, Read, MainRead, MarkerIn, WalRead, Splits;
    PartialCheckpointReads(s, gate, moved, kept, nextBlock, crc);
    KeptIDs(s, gate, moved, kept);
    SplitsListed(s, gate, moved, kept);
    var r := Reopened(s, gate, moved, kept, nextBlock, crc);
    forall b | b in kept && b !in kept[..r.end]
      ensures MainRead(Bumped(Moved(s, moved), crc), s.bs, b) == Some(WalRead(s, b))
    {
      var i :| 0 <= i < |kept| && kept[i] == b;
      forall j | 0 <= j < r.end
        ensures kept[j] in kept[..r.end]
      {
        assert kept[..r.end][j] == kept[j];
      }
      assert r.end <= i && MarkerIn(s, kept[i]) == 0;
    }
  }

  lemma SplitsListed(s: Store, gate: WalID, moved: seq<BlockID>, kept: seq<BlockID>)
    requires Splits(s, gate, moved, kept)
    ensures forall i :: 0 <= i < |moved| ==> moved[i] in s.index
    ensures forall i :: 0 <= i < |kept| ==> kept[i] in s.index
  {
  }

  /** An order of the kept blocks that writes b last. */
  ghost function LastOf(s: Store, gate: WalID, b: BlockID): seq<BlockID> {
    OrderOf((set c | c in s.index && gate <= s.index[c]) - {b}) + [b]
  }

  ghost function OrderOf(ids: set<BlockID>): (order: seq<BlockID>)
    ensures Distinct(order) && forall b :: b in order <==> b in ids
    decreases ids
  {
    if ids == {} then []
    else
      var b := AnyOf(ids);
      [b] + OrderOf(ids - {b})
  }

  ghost function AnyOf<T>(s: set<T>): (x: T)
    requires s != {}
    ensures x in s
  {
    var x :| x in s; x
  }

  lemma LastOfSplits(s: Store, gate: WalID, moved: seq<BlockID>, some: seq<BlockID>, b: BlockID)
    requires Splits(s, gate, moved, some) && b in s.index && gate <= s.index[b]
    ensures Splits(s, gate, moved, LastOf(s, gate, b)) && Distinct(LastOf(s, gate, b))
  {
    var ids := (set c | c in s.index && gate <= s.index[c]) - {b};
    var order := OrderOf(ids);
    forall i | 0 <= i < |order|
      ensures order[i] in s.index && order[i] != b
    {
      var c := order[i];
      assert c in order;
    }
  }

  lemma LastIsLost(s: Store, gate: WalID, moved: seq<BlockID>, b: BlockID, nextBlock: BlockID, crc: Checksum)
    requires Indexed(s) && FramesIntact(s, crc) && b in s.index && gate <= s.index[b]
    requires Splits(s, gate, moved, LastOf(s, gate, b)) && Distinct(LastOf(s, gate, b))
    requires !Sure(s, Bumped(Moved(s, moved), crc), b)
    ensures !LosesNothing(s, gate, moved, LastOf(s, gate, b), nextBlock, crc)
  {
    hide Reopened, Moved, KeptWal, KeptSlots, Bumped, FramesIntact, Read, MainRead, MarkerIn, WalRead, Splits, OrderOf;
    var kept := LastOf(s, gate, b);
    PartialCheckpointReads(s, gate, moved, kept, nextBlock, crc);
    var r := Reopened(s, gate, moved, kept, nextBlock, crc);
    assert kept[|kept| - 1] == b && b in kept;
    assert b !in kept[..r.end];
  }

  /** It does happen: blocks a and b are committed together while a reader is
      open, c before. If a's frame is kept last, a is gone. */
  lemma PartialCheckpointLoses(bs: nat, a: Block, b: Block, c: Block, crc: Checksum)
    requires Is32Bit(crc) && METADATA_LENGTH <= bs && Storable(a, bs) && Storable(b, bs) && Storable(c, bs)
    requires c.id < a.id && b.id != a.id && b.id != c.id
    ensures var s := BesideReader(bs, a, b, c, crc);
      && Indexed(s) && IsGate(s, 1) && Splits(s, 1, [c.id], [b.id, a.id])
      && Read(s, a.id, s.maxID) == Some(a.buf)
      && var r := Reopened(s, 1, [c.id], [b.id, a.id], s.nextBlock, crc);
         Indexed(r) && Read(r, a.id, r.maxID) == None
  {
    hide Reopened, KeptWal, KeptSlots, Bumped, FrameAt, Full, Moved;
    hide Settled, MarkerIn, BesideReader, Indexed, Splits, FramesIntact, WalRead, CommittedUpTo;
    var s := BesideReader(bs, a, b, c, crc);
    BesideIndex(bs, a, b, c, crc);
    SettledIndexed(s, crc);
    SettledIntact(s, crc);
    assert s.txs[0] == 1;
    var kept := [b.id, a.id];
    BesideSplits(s, a.id, b.id, c.id);
    PartialCheckpointReads(s, 1, [c.id], kept, s.nextBlock, crc);
    var r := Reopened(s, 1, [c.id], kept, s.nextBlock, crc);
    assert kept[0] == b.id && kept[1] == a.id && a.id in kept;
    assert a.id !in kept[..r.end];
    NotInMain(s, a.id, c.id, crc);
  }

  lemma BesideSplits(s: Store, a: BlockID, b: BlockID, c: BlockID)
    requires s.index == map[c := 0, a := 1, b := 2] && a != b && b != c && a != c
    ensures Splits(s, 1, [c], [b, a])
  {
    var moved, kept := [c], [b, a];
    assert moved[0] == c && kept[0] == b && kept[1] == a;
    forall x | x in s.index
      ensures x in moved <==> s.index[x] < 1
      ensures x in kept <==> 1 <= s.index[x]
    {
      assert x == a || x == b || x == c;
    }
  }

  lemma NotInMain(s: Store, a: BlockID, c: BlockID, crc: Checksum)
    requires Indexed(s) && s.main == [] && c in s.index && 0 <= c < a
    ensures MainRead(Bumped(Moved(s, [c]), crc), s.bs, a) == None
  {
    hide WalRead, Bumped;
    assert [c][..0] == [];
    PayloadSize(s, c);
    OffMono(c, a, s.bs);
  }

  lemma SettledIntact(s: Store, crc: Checksum)
    requires Settled(s, crc)
    ensures FramesIntact(s, crc)
  {
    hide FrameAt, TornAt, LogIndex;
  }

  lemma PutTwo(s: Store, a: Block, b: Block, crc: Checksum)
    requires Is32Bit(crc)
    ensures Put(s, [a, b], crc) ==
      PutFrame(PutFrame(s, a, false, crc), b, true, crc).(committed := s.committed + 1)
  {
    hide WithFrame;
    assert PutFrames(s, [a, b], 1, crc) == PutFrame(PutFrames(s, [a, b], 0, crc), a, false, crc);
  }

  lemma PutSingle(s: Store, c: Block, crc: Checksum)
    requires Is32Bit(crc)
    ensures Put(s, [c], crc) == PutFrame(s, c, true, crc).(committed := s.committed + 1)
  {
    hide WithFrame;
    assert PutFrames(s, [c], 1, crc) == PutFrame(PutFrames(s, [c], 0, crc), c, true, crc);
  }

  lemma BesideIndex(bs: nat, a: Block, b: Block, c: Block, crc: Checksum)
    requires Is32Bit(crc) && METADATA_LENGTH <= bs && Storable(a, bs) && Storable(b, bs) && Storable(c, bs)
    requires c.id < a.id && b.id != a.id && b.id != c.id
    ensures var s := BesideReader(bs, a, b, c, crc);
      && Settled(s, crc) && s.bs == bs && s.main == [] && s.txs == map[0 := 1] && s.maxID == 3
      && s.index == map[c.id := 0, a.id := 1, b.id := 2]
      && MarkerIn(s, a.id) == 0 && MarkerIn(s, b.id) == 1
      && Read(s, a.id, s.maxID) == Some(a.buf)
  {
    hide FrameAt, Full, WithFrame, Settled, Indexed;
    var s0 := Recovered(bs, [], [], 1, crc);
    NewSettled(bs, 1, crc);
    PutSingle(s0, c, crc);
    CommitSettled(s0, [c], crc);
    var s1 := Put(s0, [c], crc);
    var s2 := s1.(txs := map[0 := 1], nextTx := 1);
    SettledBeside(s1, s2, crc);
    PutTwo(s2, a, b, crc);
    CommitSettled(s2, [a, b], crc);
    BesideFrames(s2, a, b, crc);
  }

  lemma BesideFrames(s: Store, a: Block, b: Block, crc: Checksum)
    requires Is32Bit(crc) && Settled(s, crc) && Storable(a, s.bs) && Storable(b, s.bs) && a.id != b.id
    ensures var s' := Put(s, [a, b], crc);
      && Indexed(s') && a.id in s'.index && b.id in s'.index
      && MarkerIn(s', a.id) == 0 && MarkerIn(s', b.id) == 1
      && Read(s', a.id, s'.maxID) == Some(a.buf)
  {
    hide FrameAt, Full, WithFrame, Indexed, LogOk, IndexIsLog, TornAt;
    var blocks := [a, b];
    CommitSeenAfter(s, blocks, crc, a.id);
    PutTwo(s, a, b, crc);
    PutFramesLog(s, blocks, 2, crc);
    PutFramesEnd(s, blocks, crc);
    assert blocks[0].id == a.id;
    assert blocks[..1] == [a];
  }

  ghost function BesideReader(bs: nat, a: Block, b: Block, c: Block, crc: Checksum): Store
    requires Is32Bit(crc)
  {
    Put(Put(Recovered(bs, [], [], 1, crc), [c], crc).(txs := map[0 := 1], nextTx := 1), [a, b], crc)
  }

  lemma ValidFromIs(wal: Bytes, bs: nat, crc: Checksum, n: nat)
    requires forall i :: 0 <= i < n ==> Full(wal, bs, i) && Intact(FrameAt(wal, bs, i), crc)
    requires !(Full(wal, bs, n) && Intact(FrameAt(wal, bs, n), crc))
    ensures ValidFrom(wal, bs, crc, 0) == n
  {
    hide FrameAt, Full;
  }

  lemma KeptLog(s: Store, kept: seq<BlockID>)
    requires Indexed(s) && forall i :: 0 <= i < |kept| ==> kept[i] in s.index
    ensures var wal := Truncated(KeptWal(s, kept, |kept|), Off(|kept|, FrameSize(s.bs)));
      && !Full(wal, s.bs, |kept|)
      && forall i :: 0 <= i < |kept| ==>
           Holds(s, s.index[kept[i]], kept[i]) && Full(wal, s.bs, i) &&
           FrameAt(wal, s.bs, i) == FrameAt(s.wal, s.bs, s.slots[s.index[kept[i]]])
  {
    hide FrameOf, KeptWal;
    KeptFrames(s, kept, |kept|);
    forall i | 0 <= i < |kept|
      ensures var wal := Truncated(KeptWal(s, kept, |kept|), Off(|kept|, FrameSize(s.bs)));
        && Holds(s, s.index[kept[i]], kept[i]) && Full(wal, s.bs, i)
        && FrameAt(wal, s.bs, i) == FrameAt(s.wal, s.bs, s.slots[s.index[kept[i]]])
    {
      TruncatedKeeps(KeptWal(s, kept, |kept|), s.bs, |kept|, i);
      IndexedAt(s, kept[i]);
    }
  }

  /* ---- a torn block that a reader notices ---- */

  ghost function TornStart(bs: nat, a: Bytes, b: Bytes, torn: Bytes): seq<Event> {
    [Event.Commit([Block(1, a), Block(2, b)]), CheckpointCrash([1, 2], Copying(0, torn), 3)]
  }

  /** A new database, a commit of blocks 1 and 2, and a checkpoint that crashes
      while it copies block 1. */
  lemma TornOpens(bs: nat, a: Bytes, b: Bytes, torn: Bytes, crc: Checksum)
    requires Is32Bit(crc) && METADATA_LENGTH <= bs == |a| == |b| && 0 < |torn| < bs
    ensures var s0 := Recovered(bs, [], [], 1, crc);
      && History(s0, TornStart(bs, a, b, torn), crc)
      && var s := Final(s0, TornStart(bs, a, b, torn), crc);
         && Settled(s, crc) && s.bs == bs && s.txs == map[] && s.nextTx == 0 && s.maxID == 2
         && s.index == map[1 := 0, 2 := 1] && s.main == Written([], Off(1, bs), torn)
  {
    hide FrameAt, Full, Settled, Indexed, WithFrame, Recovered, Moved, LogOk, Put, TornMain;
    var s0, blocks := Recovered(bs, [], [], 1, crc), [Block(1, a), Block(2, b)];
    var e1, e2 := Event.Commit(blocks), CheckpointCrash([1, 2], Copying(0, torn), 3);
    NewSettled(bs, 1, crc);
    RecoveredKeeps(bs, [], [], 1, crc);
    EventReads(s0, e1, crc);
    var s1 := Put(s0, blocks, crc);
    TwoCommitted(s0, a, b, crc);
    SettledIndexed(s1, crc);
    TornFirst(s1, torn);
    EventReads(s1, e2, crc);
    HistoryOfTwo(s0, e1, e2, crc);
    TwoFrames(s0, blocks, TornMain(s1, [1, 2], 0, torn), crc);
    RecoveredKeeps(bs, TornMain(s1, [1, 2], 0, torn), s1.wal, 3, crc);
  }

  lemma RecoveredKeeps(bs: nat, main: Bytes, wal: Bytes, nextBlock: BlockID, crc: Checksum)
    ensures var r := Recovered(bs, main, wal, nextBlock, crc);
      r.bs == bs && r.main == main && r.wal == wal && r.txs == map[] && r.nextTx == 0
  {
  }

  lemma TwoCommitted(s: Store, a: Bytes, b: Bytes, crc: Checksum)
    requires Settled(s, crc) && s.end == 0 && s.maxID == 0 && s.index == map[] && Is32Bit(crc)
    ensures var s' := Put(s, [Block(1, a), Block(2, b)], crc);
      s'.index == map[1 := 0, 2 := 1] && s'.end == 2 && s'.main == s.main && s'.bs == s.bs && s'.maxID == s.maxID + 2
  {
    hide WithFrame, Settled, LogOk;
    SettledIndexed(s, crc);
    PutTwo(s, Block(1, a), Block(2, b), crc);
  }

  lemma TornFirst(s: Store, torn: Bytes)
    requires Indexed(s) && s.index == map[1 := 0, 2 := 1] && s.main == []
    ensures CanStop(s, [1, 2], Copying(0, torn)) <==> |torn| <= s.bs
    ensures TornMain(s, [1, 2], 0, torn) == Written([], Off(1, s.bs), torn)
  {
    assert [1, 2][0] == 1 && [1, 2][1] == 2 && [1, 2][..0] == [];
    MovedNone(s);
  }

  /** A log of two frames opens with both indexed. */
  lemma TwoFrames(s: Store, blocks: seq<Block>, main: Bytes, crc: Checksum)
    requires Settled(s, crc) && s.end == 0 && s.wal == [] && Is32Bit(crc)
    requires |blocks| == 2 && AllStorable(s, blocks) && blocks[0].id != blocks[1].id
    ensures var r := Recovered(s.bs, main, Put(s, blocks, crc).wal, 3, crc);
      r.index == map[blocks[0].id := 0, blocks[1].id := 1] && r.maxID == 2
  {
    hide FrameAt, Full, TornAt, IndexIsLog, Indexed, PutFrames, LogOk, CommittedUpTo, Put;
    var wal := Put(s, blocks, crc).wal;
    CommitSettled(s, blocks, crc);
    PutFramesLog(s, blocks, 2, crc);
    PutFramesEnd(s, blocks, crc);
    SettledLog(Put(s, blocks, crc), crc);
    RecoveryStops(wal, s.bs, 2, crc);
    assert blocks == [blocks[0], blocks[1]];
    PutTwo(s, blocks[0], blocks[1], crc);
    TwoFramesLong(s, blocks[0], blocks[1], crc);
    TwoFramesRead(s, blocks, wal, crc);
  }

  lemma SettledLog(s: Store, crc: Checksum)
    requires Settled(s, crc)
    ensures LogOk(s.wal, s.bs, s.end, crc)
  {
  }

  lemma TwoFramesLong(s: Store, a: Block, b: Block, crc: Checksum)
    requires s.wal == [] && s.end == 0 && Storable(a, s.bs) && Storable(b, s.bs)
    ensures !Full(PutFrame(PutFrame(s, a, false, crc), b, true, crc).wal, s.bs, 2)
  {
    hide HeaderBytes;
    SlotEnds(0, FrameSize(s.bs));
    SlotEnds(1, FrameSize(s.bs));
  }

  lemma TwoFramesRead(s: Store, blocks: seq<Block>, wal: Bytes, crc: Checksum)
    requires |blocks| == 2 && blocks[0].id != blocks[1].id && s.end == 0 && LogExtended(s, blocks, 2, wal, crc)
    requires !Full(wal, s.bs, 2)
    ensures Full(wal, s.bs, 0) && Full(wal, s.bs, 1)
    ensures LogIndex(wal, s.bs, 2) == map[blocks[0].id := 0, blocks[1].id := 1] && ValidFrom(wal, s.bs, crc, 0) == 2
  {
    hide FrameAt, Full;
    assert LogIndex(wal, s.bs, 1) == map[blocks[0].id := 0];
    ValidFromIs(wal, s.bs, crc, 2);
  }

  /** Block 1 is then torn in main and whole in the log. A reader opens, another
      transaction commits block 1 again, so the reader has none; a checkpoint that
      copies block 2 grows main over block 1, and the reader has what was torn. */
  lemma TornBlockShows(bs: nat, a: Bytes, b: Bytes, c: Bytes, torn: Bytes, crc: Checksum)
    requires Is32Bit(crc) && METADATA_LENGTH <= bs == |a| == |b| == |c| && 0 < |torn| < bs
    ensures History(Recovered(bs, [], [], 1, crc), TornStart(bs, a, b, torn), crc)
    ensures var s := BesideTorn(bs, a, b, c, torn, crc);
      && Indexed(s) && IsGate(s, 2) && Splits(s, 2, [2], [1])
      && Read(s, 1, 2) == None
      && var s' := Checkpointed(s, 2, [2], [1], crc);
         Indexed(s') && Read(s', 1, 2) == Some(torn + Zeros(bs - |torn|))
  {
    hide Settled, Moved, KeptWal, KeptSlots, FrameAt, Full;
    hide WithFrame, Final, Recovered, TornStart, Checkpointed, Padded;
    TornOpens(bs, a, b, torn, crc);
    var s0 := Final(Recovered(bs, [], [], 1, crc), TornStart(bs, a, b, torn), crc);
    var s1 := s0.(txs := map[0 := 2], nextTx := 1);
    SettledBeside(s0, s1, crc);
    PutSingle(s1, Block(1, c), crc);
    CommitSettled(s1, [Block(1, c)], crc);
    var s := BesideTorn(bs, a, b, c, torn, crc);
    SettledIndexed(s, crc);
    assert s.txs[0] == 2;
    BesideTornSplits(s);
    TornRead(bs, torn);
    CheckpointExact(s, 2, [2], [1], crc, 1, 2);
    assert [2][0] == 2 && Passes([2], 1);
  }

  /** The engine reopened after that crash, with a reader open beside which block 1
      was committed again. */
  ghost function BesideTorn(bs: nat, a: Bytes, b: Bytes, c: Bytes, torn: Bytes, crc: Checksum): Store
    requires Is32Bit(crc) && METADATA_LENGTH <= bs == |a| == |b| && 0 < |torn| < bs
  {
    TornOpens(bs, a, b, torn, crc);
    Put(Final(Recovered(bs, [], [], 1, crc), TornStart(bs, a, b, torn), crc).(txs := map[0 := 2], nextTx := 1),
        [Block(1, c)], crc)
  }

  lemma BesideTornSplits(s: Store)
    requires s.index == map[1 := 2, 2 := 1]
    ensures Splits(s, 2, [2], [1])
  {
    assert [2][0] == 2 && [1][0] == 1;
    forall x | x in s.index
      ensures x in [2] <==> s.index[x] < 2
      ensures x in [1] <==> 2 <= s.index[x]
    {
      assert x == 1 || x == 2;
    }
  }

  lemma TornRead(bs: nat, torn: Bytes)
    requires 0 < |torn| < bs
    ensures var main := Written([], Off(1, bs), torn);
      MainRead(main, bs, 1) == None && Padded(main, bs, 1) == torn + Zeros(bs - |torn|)
  {
  }
}

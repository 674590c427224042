/** Replaying the log after a crash. */
module Recovery {
  import opened Options
  import opened Bytes
  import opened Files
  import opened Metadata
  import opened WalLog
  import opened WalState
  import opened Checkpointing

  /* ---- what recovery computes ---- */

  /** The first slot from j on that is incomplete or fails its checksum. */
  function ValidFrom(wal: Bytes, bs: nat, crc: Checksum, j: nat): (m: nat)
    ensures j <= m
    ensures forall i :: j <= i < m ==> Full(wal, bs, i) && Intact(FrameAt(wal, bs, i), crc)
    ensures !(Full(wal, bs, m) && Intact(FrameAt(wal, bs, m), crc))
    decreases |wal| - Off(j, FrameSize(bs))
  {
    if Full(wal, bs, j) && Intact(FrameAt(wal, bs, j), crc) then ValidFrom(wal, bs, crc, j + 1) else j
  }

  /** The end of the last commit among the first m frames. */
  function CommittedUpTo(wal: Bytes, bs: nat, m: nat): (c: nat)
    requires forall i :: 0 <= i < m ==> Full(wal, bs, i)
    ensures c <= m
    ensures c > 0 ==> FrameAt(wal, bs, c - 1).marker != 0
    ensures forall i :: c <= i < m ==> FrameAt(wal, bs, i).marker == 0
  {
    if m == 0 then 0 else if FrameAt(wal, bs, m - 1).marker != 0 then m else CommittedUpTo(wal, bs, m - 1)
  }

  /** For every block named in the first n frames, the last slot that names it. */
  function LogIndex(wal: Bytes, bs: nat, n: nat): map<BlockID, nat>
    requires forall i :: 0 <= i < n ==> Full(wal, bs, i)
  {
    if n == 0 then map[] else LogIndex(wal, bs, n - 1)[FrameAt(wal, bs, n - 1).id := n - 1]
  }

  /** Recovered frames are numbered by their slots. */
  function OwnSlots(n: nat): (slots: map<WalID, nat>)
    ensures forall j :: j in slots <==> 0 <= j < n
    ensures forall j :: j in slots ==> slots[j] == j
  {
    if n == 0 then map[] else OwnSlots(n - 1)[n - 1 := n - 1]
  }

  /** The state a storage engine opens with on these two files. */
  ghost function Recovered(bs: nat, main: Bytes, wal: Bytes, nextBlock: BlockID, crc: Checksum): Store {
    var m := ValidFrom(wal, bs, crc, 0);
    var c := CommittedUpTo(wal, bs, m);
    Store(bs, main, wal, LogIndex(wal, bs, c), OwnSlots(c), map[], m, 0, c, nextBlock, 0)
  }

  /* ---- the log between operations ---- */

  /** The first n slots are whole commits and no valid commit-marked frame lies
      past them, so recovery stops exactly there. */
  ghost predicate LogOk(wal: Bytes, bs: nat, n: nat, crc: Checksum) {
    && Off(n, FrameSize(bs)) <= |wal|
    && (forall j :: 0 <= j < n ==>
        Full(wal, bs, j) && Intact(FrameAt(wal, bs, j), crc) && 0 <= FrameAt(wal, bs, j).id < TWO_63)
    && (n > 0 ==> FrameAt(wal, bs, n - 1).marker != 0)
    && (forall j :: n <= j && Full(wal, bs, j) ==> !Intact(FrameAt(wal, bs, j), crc) || FrameAt(wal, bs, j).marker == 0)
  }

  ghost predicate IndexIsLog(s: Store)
    requires forall i :: 0 <= i < s.end ==> Full(s.wal, s.bs, i)
  {
    && s.index.Keys == LogIndex(s.wal, s.bs, s.end).Keys
    && (forall b :: b in s.index ==> s.index[b] in s.slots && s.slots[s.index[b]] == LogIndex(s.wal, s.bs, s.end)[b])
  }

  lemma RecoveryStops(wal: Bytes, bs: nat, n: nat, crc: Checksum)
    requires LogOk(wal, bs, n, crc)
    ensures n <= ValidFrom(wal, bs, crc, 0)
    ensures CommittedUpTo(wal, bs, ValidFrom(wal, bs, crc, 0)) == n
  {
    hide FrameAt;
  }

  lemma {:induction false} LogIndexHolds(wal: Bytes, bs: nat, n: nat, b: BlockID)
    requires forall i :: 0 <= i < n ==> Full(wal, bs, i)
    ensures b in LogIndex(wal, bs, n) ==>
      LogIndex(wal, bs, n)[b] < n && FrameAt(wal, bs, LogIndex(wal, bs, n)[b]).id == b
  {
    if n > 0 {
      LogIndexHolds(wal, bs, n - 1, b);
    }
  }

  lemma {:induction false} LogIndexSame(wal: Bytes, wal': Bytes, bs: nat, n: nat)
    requires forall i :: 0 <= i < n ==>
      Full(wal, bs, i) && Full(wal', bs, i) && FrameAt(wal, bs, i) == FrameAt(wal', bs, i)
    ensures LogIndex(wal, bs, n) == LogIndex(wal', bs, n)
  {
    hide FrameAt, Full;
    if n > 0 {
      LogIndexSame(wal, wal', bs, n - 1);
    }
  }

  /* ---- serial operation ---- */

  /** The invariant of every run of commits, full checkpoints and crashes: a torn
      block of main is always shadowed by the log. */
  ghost predicate Settled(s: Store, crc: Checksum) {
    && Indexed(s)
    && LogOk(s.wal, s.bs, s.end, crc)
    && IndexIsLog(s)
    && (forall c :: TornAt(s.main, s.bs, c) ==> c in s.index)
  }

  /** Opening a sound log, over a main whose torn block the log shadows, gives a
      settled engine. */
  lemma OpenedSettled(bs: nat, main: Bytes, wal: Bytes, n: nat, nextBlock: BlockID, crc: Checksum)
    requires METADATA_LENGTH <= bs && LogOk(wal, bs, n, crc)
    requires forall c :: TornAt(main, bs, c) ==> c in LogIndex(wal, bs, n)
    ensures Settled(Recovered(bs, main, wal, nextBlock, crc), crc)
    ensures Recovered(bs, main, wal, nextBlock, crc).end == n
  {
    hide FrameAt, Full, TornAt, MainRead, LogOk, CommittedUpTo;
    RecoveryStops(wal, bs, n, crc);
    OpenedIndexed(bs, main, wal, n, nextBlock, crc);
  }

  lemma OpenedIndexed(bs: nat, main: Bytes, wal: Bytes, n: nat, nextBlock: BlockID, crc: Checksum)
    requires METADATA_LENGTH <= bs && LogOk(wal, bs, n, crc)
    ensures Indexed(Recovered(bs, main, wal, nextBlock, crc)) && forall i :: 0 <= i < n ==> Full(wal, bs, i)
  {
    hide FrameAt, Full, MainRead, CommittedUpTo;
    var r := Recovered(bs, main, wal, nextBlock, crc);
    RecoveryStops(wal, bs, n, crc);
    forall b | b in r.index
      ensures 0 <= b < TWO_63 && Holds(r, r.index[b], b)
    {
      LogIndexHolds(wal, bs, n, b);
    }
  }

  /** A new database is settled. */
  lemma NewSettled(bs: nat, nextBlock: BlockID, crc: Checksum)
    requires METADATA_LENGTH <= bs
    ensures Settled(Recovered(bs, [], [], nextBlock, crc), crc)
    ensures var r := Recovered(bs, [], [], nextBlock, crc);
      r.bs == bs && r.main == [] && r.index == map[] && r.end == 0 && r.maxID == 0
  {
    EmptyLog(bs, crc);
    OpenedSettled(bs, [], [], 0, nextBlock, crc);
    RecoveryStops([], bs, 0, crc);
  }

  /** Which transactions are open and what IDs come next does not matter. */
  lemma SettledBeside(s: Store, s': Store, crc: Checksum)
    requires Settled(s, crc)
    requires s' == s.(txs := s'.txs, nextTx := s'.nextTx, nextBlock := s'.nextBlock, committed := s'.committed)
    ensures Settled(s', crc)
  {
    hide FrameAt, TornAt, LogOk;
    forall b | b in s'.index
      ensures 0 <= b < TWO_63 && Holds(s', s'.index[b], b)
    {
      IndexedAt(s, b);
    }
  }

  /** Recovery from a sound log reads as the engine before it did, whatever
      happened to main below blocks that the log shadows. */
  lemma RecoveredReads(s: Store, main: Bytes, wal: Bytes, nextBlock: BlockID, moves: bool, crc: Checksum)
    requires Settled(s, crc) && LogOk(wal, s.bs, s.end, crc)
    requires forall i :: 0 <= i < s.end ==> Full(wal, s.bs, i) && FrameAt(wal, s.bs, i) == FrameAt(s.wal, s.bs, i)
    requires forall c :: TornAt(main, s.bs, c) ==> c in s.index
    requires forall c :: c !in s.index ==>
      Norm(c, MainRead(main, s.bs, c)) == Norm(c, Filled(c, MainRead(s.main, s.bs, c), s.bs, moves))
    ensures var r := Recovered(s.bs, main, wal, nextBlock, crc);
      && Settled(r, crc)
      && (forall b :: Norm(b, Read(r, b, r.maxID)) == Norm(b, Filled(b, Read(s, b, s.maxID), s.bs, moves)))
  {
    hide FrameAt, Full, Norm, TornAt, MainRead, LogOk, Filled, CommittedUpTo;
    var r := Recovered(s.bs, main, wal, nextBlock, crc);
    SettledFrames(s, crc);
    RecoveryStops(wal, s.bs, s.end, crc);
    LogIndexSame(s.wal, wal, s.bs, s.end);
    OpenedIndexed(s.bs, main, wal, s.end, nextBlock, crc);
    forall b
      ensures b in r.index <==> b in s.index
      ensures b in r.index ==> Read(r, b, r.maxID) == Some(WalRead(s, b)) && Read(s, b, s.maxID) == Some(WalRead(s, b))
    {
      if b in s.index {
        LogIndexHolds(wal, s.bs, s.end, b);
        IndexedAt(s, b);
      }
    }
    SomeUnfilled(s.bs, moves);
  }

  lemma SomeUnfilled(bs: nat, moves: bool)
    ensures forall b, buf :: Filled(b, Some(buf), bs, moves) == Some(buf)
  {
  }

  /* ---- commits, whole and cut short ---- */

  function NewFrame(blocks: seq<Block>, i: nat, crc: Checksum): Frame
    requires i < |blocks|
  {
    Frame(blocks[i].id, MarkerOf(i + 1 == |blocks|), crc(blocks[i].buf), blocks[i].buf)
  }

  /** The frames of a commit's first k blocks lie after the old log; every other
      slot holds what it held. */
  ghost predicate LogExtended(s: Store, blocks: seq<Block>, k: nat, wal: Bytes, crc: Checksum)
    requires k <= |blocks|
  {
    && (forall j :: 0 <= j < s.end && Full(s.wal, s.bs, j) ==>
        Full(wal, s.bs, j) && FrameAt(wal, s.bs, j) == FrameAt(s.wal, s.bs, j))
    && (forall j :: s.end <= j < s.end + k ==>
        Full(wal, s.bs, j) && FrameAt(wal, s.bs, j) == NewFrame(blocks, j - s.end, crc))
    && (forall j :: s.end + k <= j ==>
          (Full(wal, s.bs, j) <==> Full(s.wal, s.bs, j)) &&
          (Full(wal, s.bs, j) && Full(s.wal, s.bs, j) ==> FrameAt(wal, s.bs, j) == FrameAt(s.wal, s.bs, j)))
    && Off(s.end + k, FrameSize(s.bs)) <= |wal|
  }

  lemma {:induction false} PutFramesLog(s: Store, blocks: seq<Block>, k: nat, crc: Checksum)
    requires Indexed(s) && AllStorable(s, blocks) && Is32Bit(crc) && k <= |blocks|
    ensures LogExtended(s, blocks, k, PutFrames(s, blocks, k, crc).wal, crc)
    ensures PutFrames(s, blocks, k, crc).end == s.end + k && PutFrames(s, blocks, k, crc).bs == s.bs
  {
    hide FrameAt, Full, WithFrame;
    if k > 0 {
      PutFramesLog(s, blocks, k - 1, crc);
      var w := PutFrames(s, blocks, k - 1, crc).wal;
      FrameWritten(w, s.bs, s.end + k - 1, blocks[k - 1], k == |blocks|, crc);
    }
  }

  lemma {:induction false} PutFramesIndexed(s: Store, blocks: seq<Block>, k: nat, crc: Checksum)
    requires Indexed(s) && AllStorable(s, blocks) && Is32Bit(crc) && k <= |blocks|
    requires forall i :: 0 <= i < s.end ==> Full(s.wal, s.bs, i)
    requires IndexIsLog(s)
    ensures var s' := PutFrames(s, blocks, k, crc);
      s'.bs == s.bs && (forall i :: 0 <= i < s'.end ==> Full(s'.wal, s.bs, i)) && IndexIsLog(s')
  {
    hide FrameAt, Full, WithFrame;
    if k > 0 {
      PutFramesIndexed(s, blocks, k - 1, crc);
      PutFramesRead(s, blocks, k - 1, crc);
      PutFrameIndexed(PutFrames(s, blocks, k - 1, crc), blocks[k - 1], k == |blocks|, crc);
    }
  }

  lemma PutFrameIndexed(s: Store, b: Block, last: bool, crc: Checksum)
    requires Indexed(s) && Storable(b, s.bs) && Is32Bit(crc)
    requires forall i :: 0 <= i < s.end ==> Full(s.wal, s.bs, i)
    requires IndexIsLog(s)
    ensures var s' := PutFrame(s, b, last, crc);
      s'.bs == s.bs && (forall i :: 0 <= i < s'.end ==> Full(s'.wal, s.bs, i)) && IndexIsLog(s')
  {
    hide FrameAt, Full, WithFrame;
    var s' := PutFrame(s, b, last, crc);
    FrameWritten(s.wal, s.bs, s.end, b, last, crc);
    LogIndexSame(s.wal, s'.wal, s.bs, s.end);
    forall c | c in s'.index
      ensures s'.index[c] in s'.slots && s'.slots[s'.index[c]] == LogIndex(s'.wal, s.bs, s'.end)[c]
    {
      if c != b.id {
        IndexedAt(s, c);
      }
    }
  }

  /** A commit's frames extend a sound log to a sound log. */
  lemma PutLogOk(s: Store, blocks: seq<Block>, wal: Bytes, crc: Checksum)
    requires LogOk(s.wal, s.bs, s.end, crc) && AllStorable(s, blocks) && blocks != []
    requires LogExtended(s, blocks, |blocks|, wal, crc)
    ensures LogOk(wal, s.bs, s.end + |blocks|, crc)
  {
    hide FrameAt, Full, Off;
  }

  lemma CommitSettled(s: Store, blocks: seq<Block>, crc: Checksum)
    requires Settled(s, crc) && AllStorable(s, blocks) && Is32Bit(crc)
    ensures Settled(Put(s, blocks, crc), crc)
  {
    hide FrameAt, Full, TornAt, LogIndex, LogExtended, Indexed, LogOk, PutFrames, WalRead, Names, LastBuf;
    if blocks != [] {
      SettledFrames(s, crc);
      PutFramesLog(s, blocks, |blocks|, crc);
      PutFramesIndexed(s, blocks, |blocks|, crc);
      PutFramesRead(s, blocks, |blocks|, crc);
      PutLogOk(s, blocks, PutFrames(s, blocks, |blocks|, crc).wal, crc);
      SettledBeside(PutFrames(s, blocks, |blocks|, crc), Put(s, blocks, crc), crc);
    }
  }

  /** The log a crash leaves when k frames of a commit were whole and the write
      of the next one had got as far as stage. */
  ghost function CrashWal(s: Store, blocks: seq<Block>, k: nat, stage: Stage, crc: Checksum): Bytes
    requires Is32Bit(crc) && k <= |blocks| && (k < |blocks| ==> StageFits(stage, |blocks[k].buf|))
  {
    var w := PutFrames(s, blocks, k, crc).wal;
    if k == |blocks| then w else WithStage(w, s.bs, s.end + k, blocks[k], k + 1 == |blocks|, crc, stage)
  }

  ghost predicate CanCrash(s: Store, blocks: seq<Block>, k: nat, stage: Stage, crc: Checksum)
    requires Is32Bit(crc)
  {
    && AllStorable(s, blocks) && k <= |blocks| && StageFits(stage, s.bs)
    && (stage.HeaderOnly? || stage.PartPayload? ==> TellsApart(s, blocks, k, CrashWal(s, blocks, k, stage, crc), crc))
  }

  /** The checksum tells a torn payload from the one that was being written. */
  ghost predicate TellsApart(s: Store, blocks: seq<Block>, k: nat, wal: Bytes, crc: Checksum) {
    k < |blocks| && Full(wal, s.bs, s.end + k) && crc(FrameAt(wal, s.bs, s.end + k).payload) == crc(blocks[k].buf) ==>
      FrameAt(wal, s.bs, s.end + k).payload == blocks[k].buf
  }

  /** The commit reached the log whole, marker included. */
  ghost predicate Durable(s: Store, blocks: seq<Block>, wal: Bytes, crc: Checksum)
    requires Is32Bit(crc)
  {
    blocks != [] && wal == PutFrames(s, blocks, |blocks|, crc).wal
  }

  /** The last header was torn past its commit marker, over a frame left in the
      slot whose payload matches the checksum that can then be read: up to the
      twentieth byte that is the frame's own one. */
  ghost predicate Mistaken(s: Store, blocks: seq<Block>, k: nat, stage: Stage, crc: Checksum) {
    && k + 1 == |blocks| && stage.HeaderPart? && 16 <= stage.t < FRAME_HEADER
    && Full(s.wal, s.bs, s.end + k)
    && crc(FrameAt(s.wal, s.bs, s.end + k).payload) ==
        MixedSum(stage.t, FrameAt(s.wal, s.bs, s.end + k).sum, crc(blocks[k].buf))
  }

  lemma MistakenForIntact(s: Store, blocks: seq<Block>, k: nat, t: nat, crc: Checksum)
    requires 0 < t <= 20
    ensures Mistaken(s, blocks, k, HeaderPart(t), crc) <==>
      k + 1 == |blocks| && 16 <= t && Full(s.wal, s.bs, s.end + k) && Intact(FrameAt(s.wal, s.bs, s.end + k), crc)
  {
    hide FrameAt, Full;
  }

  ghost predicate Marked(wal: Bytes, bs: nat, j: nat, crc: Checksum) {
    Full(wal, bs, j) && Intact(FrameAt(wal, bs, j), crc) && FrameAt(wal, bs, j).marker != 0
  }

  /** A commit cut short anywhere leaves the log as it was for recovery exactly
      when it neither got there whole nor had its last header mistaken. */
  lemma CutCommitLog(s: Store, blocks: seq<Block>, k: nat, stage: Stage, crc: Checksum)
    requires Settled(s, crc) && Is32Bit(crc) && CanCrash(s, blocks, k, stage, crc)
    ensures var wal := CrashWal(s, blocks, k, stage, crc);
      && (LogOk(wal, s.bs, s.end, crc) <==> !Durable(s, blocks, wal, crc) && !Mistaken(s, blocks, k, stage, crc))
      && (forall i :: 0 <= i < s.end ==> Full(wal, s.bs, i) && FrameAt(wal, s.bs, i) == FrameAt(s.wal, s.bs, i))
  {
    hide FrameAt, Full, TornAt, LogIndex, Indexed, IndexIsLog, CrashWal, Durable, Mistaken, LogExtended, LogOk;
    var wal := CrashWal(s, blocks, k, stage, crc);
    CrashSlots(s, blocks, k, stage, crc);
    if k < |blocks| {
      CutSlot(s, blocks, k, stage, crc);
    } else if blocks != [] {
      DurableMarked(s, blocks, wal, crc);
    }
    CutLogOk(s, blocks, k, wal, crc);
    if k == |blocks| {
      WholeCommit(s, blocks, stage, crc);
    }
  }

  lemma WholeCommit(s: Store, blocks: seq<Block>, stage: Stage, crc: Checksum)
    requires Is32Bit(crc)
    ensures Durable(s, blocks, CrashWal(s, blocks, |blocks|, stage, crc), crc) <==> blocks != []
    ensures !Mistaken(s, blocks, |blocks|, stage, crc)
  {
  }

  /** Outside the slot being written the crashed log is the old one extended. */
  ghost predicate CrashedAround(s: Store, blocks: seq<Block>, k: nat, wal: Bytes, crc: Checksum)
    requires k <= |blocks|
  {
    && Off(s.end, FrameSize(s.bs)) <= |wal|
    && (forall j :: 0 <= j < s.end && Full(s.wal, s.bs, j) ==>
        Full(wal, s.bs, j) && FrameAt(wal, s.bs, j) == FrameAt(s.wal, s.bs, j))
    && (forall j :: s.end <= j < s.end + k ==>
        Full(wal, s.bs, j) && FrameAt(wal, s.bs, j) == NewFrame(blocks, j - s.end, crc))
    && (forall j :: s.end + k <= j && (j == s.end + k ==> k == |blocks|) ==>
          (Full(wal, s.bs, j) <==> Full(s.wal, s.bs, j)) &&
          (Full(wal, s.bs, j) && Full(s.wal, s.bs, j) ==> FrameAt(wal, s.bs, j) == FrameAt(s.wal, s.bs, j)))
  }

  lemma CrashSlots(s: Store, blocks: seq<Block>, k: nat, stage: Stage, crc: Checksum)
    requires Settled(s, crc) && AllStorable(s, blocks) && Is32Bit(crc) && k <= |blocks| && StageFits(stage, s.bs)
    ensures CrashedAround(s, blocks, k, CrashWal(s, blocks, k, stage, crc), crc)
  {
    hide FrameAt, Full, TornAt, LogIndex, WithStage, Indexed;
    hide IndexIsLog, LogOk, Off, CrashedAround, LogExtended, OthersSame, PutFrames;
    var w := PutFrames(s, blocks, k, crc).wal;
    PutFramesLog(s, blocks, k, crc);
    ExtendedWithin(s, blocks, k, w, crc);
    if k < |blocks| {
      if stage.HeaderPart? {
        HeaderPartWritten(w, s.bs, s.end + k, blocks[k], k + 1 == |blocks|, crc, stage.t);
      } else {
        StageWritten(w, s.bs, s.end + k, blocks[k], k + 1 == |blocks|, crc, stage);
      }
      CrashedAfter(s, blocks, k, w, CrashWal(s, blocks, k, stage, crc), crc);
    } else {
      WholeAround(s, blocks, w, crc);
    }
  }

  lemma CrashedAfter(s: Store, blocks: seq<Block>, k: nat, w: Bytes, wal: Bytes, crc: Checksum)
    requires k < |blocks| && LogExtended(s, blocks, k, w, crc) && OthersSame(w, wal, s.bs, s.end + k)
    requires Off(s.end, FrameSize(s.bs)) <= |w| <= |wal|
    ensures CrashedAround(s, blocks, k, wal, crc)
  {
    hide FrameAt, Full, Off, NewFrame;
  }

  lemma WholeAround(s: Store, blocks: seq<Block>, w: Bytes, crc: Checksum)
    requires LogExtended(s, blocks, |blocks|, w, crc) && Off(s.end, FrameSize(s.bs)) <= |w|
    ensures CrashedAround(s, blocks, |blocks|, w, crc)
  {
    hide FrameAt, Full, Off, NewFrame;
  }

  lemma ExtendedWithin(s: Store, blocks: seq<Block>, k: nat, w: Bytes, crc: Checksum)
    requires k <= |blocks| && LogExtended(s, blocks, k, w, crc)
    ensures Off(s.end, FrameSize(s.bs)) <= Off(s.end + k, FrameSize(s.bs)) <= |w|
  {
    hide FrameAt, Full, NewFrame;
    EndsWithin(s.end, k, FrameSize(s.bs));
  }

  lemma EndsWithin(n: nat, k: nat, size: nat)
    ensures Off(n, size) <= Off(n + k, size)
  {
    if k > 0 {
      OffMono(n, n + k, size);
    }
  }

  /** The old log survives exactly when the slot being written, or the commit's
      last one, holds no valid marked frame. */
  lemma CutLogOk(s: Store, blocks: seq<Block>, k: nat, wal: Bytes, crc: Checksum)
    requires Settled(s, crc) && k <= |blocks| && CrashedAround(s, blocks, k, wal, crc)
    ensures forall i :: 0 <= i < s.end ==> Full(wal, s.bs, i) && FrameAt(wal, s.bs, i) == FrameAt(s.wal, s.bs, i)
    ensures k < |blocks| ==> (LogOk(wal, s.bs, s.end, crc) <==> !Marked(wal, s.bs, s.end + k, crc))
    ensures k == |blocks| == 0 ==> LogOk(wal, s.bs, s.end, crc)
    ensures k == |blocks| > 0 && Marked(wal, s.bs, s.end + k - 1, crc) ==> !LogOk(wal, s.bs, s.end, crc)
  {
    hide FrameAt, Full, TornAt, LogIndex, Indexed, IndexIsLog, Off;
  }

  lemma DurableMarked(s: Store, blocks: seq<Block>, wal: Bytes, crc: Checksum)
    requires Settled(s, crc) && AllStorable(s, blocks) && Is32Bit(crc)
    ensures Durable(s, blocks, wal, crc) ==> Marked(wal, s.bs, s.end + |blocks| - 1, crc)
  {
    hide FrameAt, Full, TornAt, LogIndex, Indexed, IndexIsLog, LogOk;
    PutFramesLog(s, blocks, |blocks|, crc);
  }

  /** Only the last frame of a commit makes it durable. */
  lemma DurableHere(s: Store, blocks: seq<Block>, k: nat, wal: Bytes, crc: Checksum)
    requires Settled(s, crc) && AllStorable(s, blocks) && Is32Bit(crc)
    requires k < |blocks| && CrashedAround(s, blocks, k, wal, crc)
    ensures Durable(s, blocks, wal, crc) ==> k + 1 == |blocks| && Marked(wal, s.bs, s.end + k, crc)
  {
    hide FrameAt, Full, TornAt, LogIndex, Indexed, IndexIsLog, Durable, NewFrame, Off;
    DurableMarked(s, blocks, wal, crc);
  }

  /** Before the write the slot holds what the old log has there: no valid
      marked frame. */
  lemma SlotBefore(s: Store, blocks: seq<Block>, k: nat, crc: Checksum)
    requires Settled(s, crc) && AllStorable(s, blocks) && Is32Bit(crc) && k <= |blocks|
    ensures var w := PutFrames(s, blocks, k, crc).wal; var j := s.end + k;
      && Off(j, FrameSize(s.bs)) <= |w|
      && (Full(w, s.bs, j) <==> Full(s.wal, s.bs, j)) && !Marked(w, s.bs, j, crc)
      && (Full(w, s.bs, j) && Full(s.wal, s.bs, j) ==> FrameAt(w, s.bs, j) == FrameAt(s.wal, s.bs, j))
  {
    hide FrameAt, Full, TornAt, LogIndex, Indexed, IndexIsLog, NewFrame, Off, PutFrames, AllStorable;
    PutFramesLog(s, blocks, k, crc);
  }

  /** The slot being written holds a valid marked frame exactly when the commit
      got there whole or its header was mistaken. */
  lemma CutSlot(s: Store, blocks: seq<Block>, k: nat, stage: Stage, crc: Checksum)
    requires Settled(s, crc) && Is32Bit(crc) && CanCrash(s, blocks, k, stage, crc) && k < |blocks|
    ensures var wal := CrashWal(s, blocks, k, stage, crc);
      Marked(wal, s.bs, s.end + k, crc) <==> Durable(s, blocks, wal, crc) || Mistaken(s, blocks, k, stage, crc)
  {
    hide Settled, WithStage, MixedSum, Marked, Durable, CrashedAround, TellsApart, Full, FrameAt, Mistaken;
    var wal := CrashWal(s, blocks, k, stage, crc);
    SlotBefore(s, blocks, k, crc);
    CrashSlots(s, blocks, k, stage, crc);
    DurableHere(s, blocks, k, wal, crc);
    match stage {
      case NotBegun =>
        NotMistaken(s, blocks, k, stage, crc);
        NothingWritten(s, blocks, k, crc);
      case HeaderPart(t) => CutHeader(s, blocks, k, t, crc);
      case _ =>
        NotMistaken(s, blocks, k, stage, crc);
        CutPayload(s, blocks, k, stage, crc);
    }
  }

  lemma NothingWritten(s: Store, blocks: seq<Block>, k: nat, crc: Checksum)
    requires Is32Bit(crc) && k <= |blocks|
    ensures CrashWal(s, blocks, k, NotBegun, crc) == PutFrames(s, blocks, k, crc).wal
  {
  }

  lemma NotMistaken(s: Store, blocks: seq<Block>, k: nat, stage: Stage, crc: Checksum)
    ensures !stage.HeaderPart? ==> !Mistaken(s, blocks, k, stage, crc)
  {
  }

  lemma CutHeader(s: Store, blocks: seq<Block>, k: nat, t: nat, crc: Checksum)
    requires Settled(s, crc) && Is32Bit(crc) && AllStorable(s, blocks) && 0 < t < FRAME_HEADER && k < |blocks|
    ensures Marked(CrashWal(s, blocks, k, HeaderPart(t), crc), s.bs, s.end + k, crc) <==>
      Mistaken(s, blocks, k, HeaderPart(t), crc)
  {
    hide FrameAt, Full, Settled, WithStage, MixedSum, Off, OthersSame;
    SlotBefore(s, blocks, k, crc);
    HeaderPartWritten(PutFrames(s, blocks, k, crc).wal, s.bs, s.end + k, blocks[k], k + 1 == |blocks|, crc, t);
    FirstDigits(t, crc(blocks[k].buf));
  }

  lemma CutPayload(s: Store, blocks: seq<Block>, k: nat, stage: Stage, crc: Checksum)
    requires Settled(s, crc) && Is32Bit(crc) && CanCrash(s, blocks, k, stage, crc) && k < |blocks|
    requires stage.HeaderOnly? || stage.PartPayload?
    ensures var wal := CrashWal(s, blocks, k, stage, crc);
      Marked(wal, s.bs, s.end + k, crc) ==> Durable(s, blocks, wal, crc)
  {
    hide FrameAt, Full, Settled, WithStage, WithFrame, Off, OthersSame;
    SlotBefore(s, blocks, k, crc);
    StageWritten(PutFrames(s, blocks, k, crc).wal, s.bs, s.end + k, blocks[k], k + 1 == |blocks|, crc, stage);
    PutFramesEndIs(s, blocks, k, crc);
  }

  lemma PutFramesEndIs(s: Store, blocks: seq<Block>, k: nat, crc: Checksum)
    requires Settled(s, crc) && AllStorable(s, blocks) && Is32Bit(crc) && k <= |blocks|
    ensures PutFrames(s, blocks, k, crc).end == s.end + k && PutFrames(s, blocks, k, crc).bs == s.bs
  {
    PutFramesLog(s, blocks, k, crc);
  }

  lemma FirstDigits(t: nat, sum: nat)
    ensures t <= 16 ==> forall was :: MixedSum(t, was, sum) == was
  {
  }

  /** The blocks recovery takes for committed after the crash: the commit, the
      commit with a leftover payload as its last block, or nothing. */
  ghost function Landed(s: Store, blocks: seq<Block>, k: nat, stage: Stage, crc: Checksum): seq<Block>
    requires Is32Bit(crc) && CanCrash(s, blocks, k, stage, crc)
  {
    if Mistaken(s, blocks, k, stage, crc) then blocks[k := Block(blocks[k].id, FrameAt(s.wal, s.bs, s.end + k).payload)]
    else if Durable(s, blocks, CrashWal(s, blocks, k, stage, crc), crc) then blocks
    else []
  }

  /** What a block reads as when these blocks were put over the newest state. */
  ghost function Over(s: Store, blocks: seq<Block>, b: BlockID): Option<Bytes>
    requires Indexed(s)
  {
    if Names(blocks, b) then Some(LastBuf(blocks, b)) else Read(s, b, s.maxID)
  }

  /** Recovery after a crash anywhere inside a commit reads as if exactly the
      blocks that landed had been committed. */
  lemma CrashInCommit(s: Store, blocks: seq<Block>, k: nat, stage: Stage, nextBlock: BlockID, crc: Checksum)
    requires Settled(s, crc) && Is32Bit(crc) && CanCrash(s, blocks, k, stage, crc)
    ensures var r := Recovered(s.bs, s.main, CrashWal(s, blocks, k, stage, crc), nextBlock, crc);
            var landed := Landed(s, blocks, k, stage, crc);
      && Settled(r, crc)
      && (forall b :: Norm(b, Read(r, b, r.maxID)) == Norm(b, Over(s, landed, b)))
  {
    hide LogOk, IndexIsLog, FrameAt, Norm, CrashWal, Recovered, Read, TornAt, Indexed, Full, MainRead;
    hide TellsApart, Durable, Mistaken, LogExtended, Names, LastBuf, Filled;
    var wal := CrashWal(s, blocks, k, stage, crc);
    var landed := Landed(s, blocks, k, stage, crc);
    CutCommitLog(s, blocks, k, stage, crc);
    if landed != [] {
      if Mistaken(s, blocks, k, stage, crc) {
        MistakenLog(s, blocks, k, stage, crc);
      } else {
        CommitLog(s, blocks, wal, crc);
      }
      LandedReads(s, landed, wal, nextBlock, crc);
    } else {
      NothingLanded(s, blocks, k, stage, crc);
      NotFilled(s.bs);
      RecoveredReads(s, s.main, wal, nextBlock, false, crc);
    }
  }

  ghost predicate ReadsAs(r: Store, s: Store, blocks: seq<Block>)
    requires Indexed(r) && Indexed(s)
  {
    forall b :: Norm(b, Read(r, b, r.maxID)) == Norm(b, Over(s, blocks, b))
  }

  /** After a crash inside a commit recovery reads all of it or nothing of it,
      unless its last header was mistaken for that of a leftover payload; then
      only if that payload compares as the one that was being written, or the
      commit with the leftover payload compares as what was there before. */
  lemma AllOrNothing(s: Store, blocks: seq<Block>, k: nat, stage: Stage, nextBlock: BlockID, crc: Checksum)
    requires Settled(s, crc) && Is32Bit(crc) && CanCrash(s, blocks, k, stage, crc)
    ensures var r := Recovered(s.bs, s.main, CrashWal(s, blocks, k, stage, crc), nextBlock, crc);
      && Indexed(r)
      && (ReadsAs(r, s, blocks) || ReadsAs(r, s, []) <==>
          (Mistaken(s, blocks, k, stage, crc) ==> LeftoverAsBefore(s, blocks, k) || LeftoverAsNew(s, blocks, k)))
  {
    hide Settled, FrameAt, Full, MixedSum, Norm, Recovered, CrashWal, TellsApart, Durable, Mistaken, ReadsAs, Over;
    SettledIndexed(s, crc);
    CrashInCommit(s, blocks, k, stage, nextBlock, crc);
    var r := Recovered(s.bs, s.main, CrashWal(s, blocks, k, stage, crc), nextBlock, crc);
    SettledIndexed(r, crc);
    var landed := Landed(s, blocks, k, stage, crc);
    assert ReadsAs(r, s, landed) by {
      IsReadAs(r, s, landed);
    }
    if Mistaken(s, blocks, k, stage, crc) {
      MistakenLast(s, blocks, k, stage, crc);
      LeftoverReads(s, r, blocks, k);
    }
  }

  lemma IsReadAs(r: Store, s: Store, blocks: seq<Block>)
    requires Indexed(r) && Indexed(s) && forall b :: Norm(b, Read(r, b, r.maxID)) == Norm(b, Over(s, blocks, b))
    ensures ReadsAs(r, s, blocks)
  {
    hide Norm, Over, Read;
  }

  /** The commit with the leftover payload as its last block. */
  ghost function WithLeftover(s: Store, blocks: seq<Block>, k: nat): seq<Block>
    requires k < |blocks| && Full(s.wal, s.bs, s.end + k)
  {
    blocks[k := Block(blocks[k].id, FrameAt(s.wal, s.bs, s.end + k).payload)]
  }

  ghost predicate LeftoverAsNew(s: Store, blocks: seq<Block>, k: nat) {
    && k < |blocks| && Full(s.wal, s.bs, s.end + k)
    && Norm(blocks[k].id, Some(FrameAt(s.wal, s.bs, s.end + k).payload)) == Norm(blocks[k].id, Some(blocks[k].buf))
  }

  ghost predicate LeftoverAsBefore(s: Store, blocks: seq<Block>, k: nat)
    requires Indexed(s)
  {
    && k < |blocks| && Full(s.wal, s.bs, s.end + k)
    && forall b :: Names(blocks, b) ==> Norm(b, Over(s, WithLeftover(s, blocks, k), b)) == Norm(b, Read(s, b, s.maxID))
  }

  lemma MistakenLast(s: Store, blocks: seq<Block>, k: nat, stage: Stage, crc: Checksum)
    requires Is32Bit(crc) && CanCrash(s, blocks, k, stage, crc) && Mistaken(s, blocks, k, stage, crc)
    ensures k + 1 == |blocks| && Full(s.wal, s.bs, s.end + k)
    ensures Landed(s, blocks, k, stage, crc) == WithLeftover(s, blocks, k)
  {
  }

  lemma LeftoverReads(s: Store, r: Store, blocks: seq<Block>, k: nat)
    requires Indexed(s) && Indexed(r) && k + 1 == |blocks| && Full(s.wal, s.bs, s.end + k)
    requires ReadsAs(r, s, WithLeftover(s, blocks, k))
    ensures ReadsAs(r, s, blocks) <==> LeftoverAsNew(s, blocks, k)
    ensures ReadsAs(r, s, []) <==> LeftoverAsBefore(s, blocks, k)
  {
    hide FrameAt, Full, Norm, Read, Names, LastBuf;
    var landed := WithLeftover(s, blocks, k);
    forall b
      ensures Names(landed, b) <==> Names(blocks, b)
      ensures b == blocks[k].id ==>
        Over(s, landed, b) == Some(landed[k].buf) && Over(s, blocks, b) == Some(blocks[k].buf) && Names(blocks, b)
      ensures b != blocks[k].id ==> Over(s, landed, b) == Over(s, blocks, b)
      ensures Over(s, [], b) == Read(s, b, s.maxID)
    {
      LastBlockOnly(blocks, landed, b);
      NoNames(b);
    }
    var id := blocks[k].id;
    assert Norm(id, Read(r, id, r.maxID)) == Norm(id, Over(s, landed, id));
  }

  lemma NoNames(id: BlockID)
    ensures !Names([], id)
  {
  }

  lemma LastBlockOnly(blocks: seq<Block>, blocks': seq<Block>, b: BlockID)
    requires blocks != [] && |blocks'| == |blocks| && blocks'[..|blocks| - 1] == blocks[..|blocks| - 1]
    requires blocks'[|blocks| - 1].id == blocks[|blocks| - 1].id
    ensures Names(blocks', b) <==> Names(blocks, b)
    ensures b == blocks[|blocks| - 1].id ==> Names(blocks, b) && LastBuf(blocks, b) == blocks[|blocks| - 1].buf
    ensures b == blocks[|blocks| - 1].id ==> Names(blocks', b) && LastBuf(blocks', b) == blocks'[|blocks| - 1].buf
    ensures b != blocks[|blocks| - 1].id && Names(blocks, b) ==>
      Names(blocks', b) && LastBuf(blocks', b) == LastBuf(blocks, b)
  {
    var n := |blocks|;
    NamesStep(blocks, n, b);
    NamesStep(blocks', n, b);
    assert blocks[..n] == blocks && blocks'[..n] == blocks';
  }

  lemma NothingLanded(s: Store, blocks: seq<Block>, k: nat, stage: Stage, crc: Checksum)
    requires Is32Bit(crc) && CanCrash(s, blocks, k, stage, crc) && Landed(s, blocks, k, stage, crc) == []
    ensures !Durable(s, blocks, CrashWal(s, blocks, k, stage, crc), crc) && !Mistaken(s, blocks, k, stage, crc)
    ensures forall b :: !Names([], b)
  {
  }

  lemma NotFilled(bs: nat)
    ensures forall b, r :: Filled(b, r, bs, false) == r
  {
  }

  /** The log recovery reads as that of a whole commit of these blocks. */
  ghost predicate ReadsAsCommit(s: Store, blocks: seq<Block>, wal: Bytes, crc: Checksum) {
    && AllStorable(s, blocks) && LogOk(wal, s.bs, s.end + |blocks|, crc)
    && (forall j :: 0 <= j < s.end && Full(s.wal, s.bs, j) ==>
        Full(wal, s.bs, j) && FrameAt(wal, s.bs, j) == FrameAt(s.wal, s.bs, j))
    && (forall j :: s.end <= j < s.end + |blocks| ==>
        Full(wal, s.bs, j) && FrameAt(wal, s.bs, j) == NewFrame(blocks, j - s.end, crc))
  }

  lemma CommitLog(s: Store, blocks: seq<Block>, wal: Bytes, crc: Checksum)
    requires Settled(s, crc) && Is32Bit(crc) && AllStorable(s, blocks) && Durable(s, blocks, wal, crc)
    ensures ReadsAsCommit(s, blocks, wal, crc)
  {
    hide FrameAt, Full, TornAt, LogIndex, Indexed, IndexIsLog, LogOk, Off, NewFrame, PutFrames, Put;
    CommitSettled(s, blocks, crc);
    PutFramesLog(s, blocks, |blocks|, crc);
    PutFramesEnd(s, blocks, crc);
  }

  lemma PutFramesEnd(s: Store, blocks: seq<Block>, crc: Checksum)
    requires Is32Bit(crc) && blocks != []
    ensures Put(s, blocks, crc).wal == PutFrames(s, blocks, |blocks|, crc).wal
    ensures Put(s, blocks, crc).end == PutFrames(s, blocks, |blocks|, crc).end
    ensures Put(s, blocks, crc).bs == PutFrames(s, blocks, |blocks|, crc).bs
  {
  }

  lemma MistakenLog(s: Store, blocks: seq<Block>, k: nat, stage: Stage, crc: Checksum)
    requires Settled(s, crc) && Is32Bit(crc) && CanCrash(s, blocks, k, stage, crc) && Mistaken(s, blocks, k, stage, crc)
    ensures ReadsAsCommit(s, Landed(s, blocks, k, stage, crc), CrashWal(s, blocks, k, stage, crc), crc)
  {
    hide FrameAt, Full, TornAt, LogIndex, WithStage, Indexed, IndexIsLog;
    hide MixedSum, Off, LogExtended, PutFrames, OthersSame, LogOk, CrashedAround;
    var wal := CrashWal(s, blocks, k, stage, crc);
    SlotBefore(s, blocks, k, crc);
    CrashSlots(s, blocks, k, stage, crc);
    HeaderPartWritten(PutFrames(s, blocks, k, crc).wal, s.bs, s.end + k, blocks[k], true, crc, stage.t);
    PayloadLength(s.wal, s.bs, s.end + k);
    FullLength(wal, s.bs, s.end + k);
    AsCommit(s, blocks, Landed(s, blocks, k, stage, crc), wal, crc);
  }

  /** Replacing the last block of a commit replaces its last frame. */
  lemma AsCommit(s: Store, blocks: seq<Block>, landed: seq<Block>, wal: Bytes, crc: Checksum)
    requires Settled(s, crc) && AllStorable(s, blocks) && AllStorable(s, landed)
    requires blocks != [] && CrashedAround(s, blocks, |blocks| - 1, wal, crc)
    requires |landed| == |blocks| && landed == blocks[|blocks| - 1 := landed[|blocks| - 1]]
    requires var j := s.end + |blocks| - 1;
      && Full(wal, s.bs, j) && FrameAt(wal, s.bs, j) == NewFrame(landed, |blocks| - 1, crc)
      && Off(j + 1, FrameSize(s.bs)) <= |wal|
    ensures ReadsAsCommit(s, landed, wal, crc)
  {
    hide FrameAt, Full, TornAt, LogIndex, Indexed, IndexIsLog, Off;
  }

  lemma PayloadLength(wal: Bytes, bs: nat, j: nat)
    requires Full(wal, bs, j)
    ensures |FrameAt(wal, bs, j).payload| == bs
  {
    hide FrameOf;
    FramePayload(wal[Off(j, FrameSize(bs))..Off(j, FrameSize(bs)) + FrameSize(bs)]);
  }

  lemma FullLength(wal: Bytes, bs: nat, j: nat)
    ensures Full(wal, bs, j) ==> Off(j + 1, FrameSize(bs)) <= |wal|
  {
  }

  lemma LandedReads(s: Store, blocks: seq<Block>, wal: Bytes, nextBlock: BlockID, crc: Checksum)
    requires Settled(s, crc) && Is32Bit(crc) && blocks != [] && ReadsAsCommit(s, blocks, wal, crc)
    ensures var r := Recovered(s.bs, s.main, wal, nextBlock, crc);
      && Settled(r, crc)
      && (forall b :: Norm(b, Read(r, b, r.maxID)) == Norm(b, Over(s, blocks, b)))
  {
    hide LogOk, IndexIsLog, FrameAt, Norm, Recovered, Read, TornAt;
    hide Indexed, Full, MainRead, Names, LastBuf, NewFrame, Filled, Put, PutFrames, AllStorable, LogIndex;
    var s' := Put(s, blocks, crc);
    CommitSettled(s, blocks, crc);
    PutFramesLog(s, blocks, |blocks|, crc);
    PutFramesEnd(s, blocks, crc);
    PutKeepsMain(s, blocks, crc);
    SettledFrames(s, crc);
    NotFilled(s.bs);
    RecoveredReads(s', s.main, wal, nextBlock, false, crc);
    EachBlockSeen(s, blocks, crc);
  }

  lemma EachBlockSeen(s: Store, blocks: seq<Block>, crc: Checksum)
    requires Indexed(s) && AllStorable(s, blocks) && Is32Bit(crc) && Indexed(Put(s, blocks, crc))
    ensures var s' := Put(s, blocks, crc);
      forall b :: Read(s', b, s'.maxID) == if Names(blocks, b) then Some(LastBuf(blocks, b)) else Read(s, b, s.maxID)
  {
    hide Indexed, Put, Read, Names, LastBuf, AllStorable;
    forall b
      ensures var s' := Put(s, blocks, crc);
        Read(s', b, s'.maxID) == if Names(blocks, b) then Some(LastBuf(blocks, b)) else Read(s, b, s.maxID)
    {
      CommitSeenAfter(s, blocks, crc, b);
    }
  }

  lemma SettledFrames(s: Store, crc: Checksum)
    requires Settled(s, crc)
    ensures forall j :: 0 <= j < s.end ==> Full(s.wal, s.bs, j)
  {
    hide FrameAt, TornAt, Indexed;
  }

  lemma PutKeepsMain(s: Store, blocks: seq<Block>, crc: Checksum)
    requires Indexed(s) && AllStorable(s, blocks) && Is32Bit(crc)
    ensures Put(s, blocks, crc).main == s.main && Put(s, blocks, crc).bs == s.bs
  {
    PutFramesRead(s, blocks, |blocks|, crc);
  }

  /** Closing a settled engine's files anywhere and opening them again changes nothing. */
  lemma ReopenReads(s: Store, nextBlock: BlockID, crc: Checksum)
    requires Settled(s, crc)
    ensures var r := Recovered(s.bs, s.main, s.wal, nextBlock, crc);
      && Settled(r, crc)
      && (forall b :: Norm(b, Read(r, b, r.maxID)) == Norm(b, Read(s, b, s.maxID)))
  {
    hide LogOk, IndexIsLog, FrameAt, Norm, Recovered, Read, TornAt, Indexed, MainRead, Filled;
    NotFilled(s.bs);
    SettledFrames(s, crc);
    RecoveredReads(s, s.main, s.wal, nextBlock, false, crc);
  }

  /* ---- full checkpoints, whole and cut short ---- */

  /** An order in which a full checkpoint may copy the indexed blocks. */
  ghost predicate CopiesAll(s: Store, order: seq<BlockID>) {
    && (forall i :: 0 <= i < |order| ==> order[i] in s.index)
    && (forall b :: b in s.index ==> b in order)
  }

  lemma CopiesAllSplits(s: Store, order: seq<BlockID>)
    requires Indexed(s) && CopiesAll(s, order)
    ensures Splits(s, s.maxID, order, [])
  {
    forall b | b in s.index
      ensures s.index[b] < s.maxID
    {
      IndexedAt(s, b);
    }
  }

  /** A full checkpoint keeps the invariant, and what everyone reads, but for an
      absent block 0 that it fills in. */
  lemma CheckpointSettled(s: Store, order: seq<BlockID>, crc: Checksum)
    requires Settled(s, crc) && Is32Bit(crc) && CopiesAll(s, order)
    ensures Splits(s, s.maxID, order, [])
    ensures var s' := Checkpointed(s, s.maxID, order, [], crc);
      && Settled(s', crc)
      && (forall b :: Norm(b, Read(s', b, s'.maxID)) == Norm(b, Filled(b, Read(s, b, s.maxID), s.bs, order != [])))
  {
    hide FrameAt, Norm, Read, Moved, TornAt, Filled;
    CopiesAllSplits(s, order);
    var s' := Checkpointed(s, s.maxID, order, [], crc);
    CheckpointIndexed(s, s.maxID, order, [], crc);
    forall b
      ensures Norm(b, Read(s', b, s'.maxID)) == Norm(b, Filled(b, Read(s, b, s.maxID), s.bs, order != []))
    {
      CheckpointFills(s, s.maxID, order, [], crc, b, s.maxID);
    }
    assert LogOk(s'.wal, s'.bs, s'.end, crc) && s'.index == map[] by {
      EmptyLog(s.bs, crc);
      NoneKept(s);
    }
    forall c
      ensures !TornAt(s'.main, s.bs, c)
    {
      NotTornAfter(s, order, c);
      assert |s'.main| == |Moved(s, order)|;
      TornByLength(Moved(s, order), s'.main, s.bs, c);
    }
  }

  lemma NoneKept(s: Store)
    requires Indexed(s)
    ensures KeptIndex(s, s.maxID) == map[]
  {
    forall b | b in s.index
      ensures s.index[b] < s.maxID
    {
      IndexedAt(s, b);
    }
  }

  lemma EmptyLog(bs: nat, crc: Checksum)
    ensures LogOk([], bs, 0, crc)
  {
  }

  lemma NotTornAfter(s: Store, order: seq<BlockID>, c: BlockID)
    requires Indexed(s) && CopiesAll(s, order)
    requires TornAt(s.main, s.bs, c) ==> c in s.index
    ensures !TornAt(Moved(s, order), s.bs, c)
  {
    MovedSeen(s, order, c);
  }

  /* ---- where a checkpoint may be cut short ---- */

  /** While i blocks of the order were copied and the next copy had put only the
      bytes of torn in place, or, with every block copied and the log cut to
      nothing, while t bytes of main's new header were written. */
  datatype Phase = Copying(i: nat, torn: Bytes) | Bumping(t: nat)

  ghost predicate Copies(s: Store, order: seq<BlockID>) {
    forall i :: 0 <= i < |order| ==> order[i] in s.index
  }

  /** A checkpoint of any kind may be cut short while it copies; one that keeps no
      frames also after that. */
  ghost predicate CanStop(s: Store, order: seq<BlockID>, phase: Phase) {
    && Copies(s, order)
    && match phase
       case Copying(i, torn) => i <= |order| && |torn| <= s.bs
       case Bumping(t) => CopiesAll(s, order) && t <= METADATA_LENGTH
  }

  ghost function TornMain(s: Store, order: seq<BlockID>, i: nat, torn: Bytes): Bytes
    requires Indexed(s) && Copies(s, order) && i <= |order|
  {
    if i == |order| then Moved(s, order) else Written(Moved(s, order[..i]), Off(order[i], s.bs), torn)
  }

  ghost function StoppedMain(s: Store, order: seq<BlockID>, phase: Phase, crc: Checksum): Bytes
    requires Indexed(s) && CanStop(s, order, phase)
  {
    match phase
    case Copying(i, torn) => TornMain(s, order, i, torn)
    case Bumping(t) => BumpTorn(Moved(s, order), t, crc)
  }

  function StoppedWal(wal: Bytes, phase: Phase): Bytes {
    if phase.Copying? then wal else []
  }

  /** A crash at any point of a checkpoint's copying, torn writes to main included,
      and, if it keeps no frames, at any later point up to the last byte of the
      version bump, loses nothing: the log still has every block that was being
      copied, or, once it is cut to nothing, main has them all. */
  lemma CrashInCheckpoint(s: Store, order: seq<BlockID>, phase: Phase, nextBlock: BlockID, crc: Checksum)
    requires Settled(s, crc) && Is32Bit(crc) && CanStop(s, order, phase)
    ensures var r := Recovered(s.bs, StoppedMain(s, order, phase, crc), StoppedWal(s.wal, phase), nextBlock, crc);
      && Settled(r, crc)
      && (forall b :: Norm(b, Read(r, b, r.maxID)) == Norm(b, Filled(b, Read(s, b, s.maxID), s.bs, order != [])))
  {
    hide FrameAt, Norm, Read, Moved, TornAt, MainRead, Filled, BumpTorn;
    match phase {
      case Bumping(t) => CutLogReads(s, order, t, nextBlock, crc);
      case Copying(i, torn) =>
        var main := TornMain(s, order, i, torn);
        forall c
          ensures TornAt(main, s.bs, c) ==> c in s.index
          ensures c !in s.index ==>
            Norm(c, MainRead(main, s.bs, c)) == Norm(c, Filled(c, MainRead(s.main, s.bs, c), s.bs, order != []))
        {
          TornMainSeen(s, order, i, torn, c);
        }
        RecoveredReads(s, main, s.wal, nextBlock, order != [], crc);
    }
  }

  lemma TornMainSeen(s: Store, order: seq<BlockID>, i: nat, torn: Bytes, c: BlockID)
    requires Indexed(s) && Copies(s, order) && i <= |order| && |torn| <= s.bs
    requires TornAt(s.main, s.bs, c) ==> c in s.index
    ensures c !in s.index ==> !TornAt(TornMain(s, order, i, torn), s.bs, c)
    ensures c !in s.index ==>
      Norm(c, MainRead(TornMain(s, order, i, torn), s.bs, c)) ==
      Norm(c, Filled(c, MainRead(s.main, s.bs, c), s.bs, order != []))
  {
    hide FrameAt, Norm, Read, Moved, TornAt, MainRead;
    MovedSeen(s, order[..i], c);
    if i < |order| {
      IndexedAt(s, order[i]);
      if c !in s.index {
        var main := Moved(s, order[..i]);
        CopySeen(main, s.bs, order[i], torn, c);
        FilledNorm(c, MainRead(main, s.bs, c), Filled(c, MainRead(s.main, s.bs, c), s.bs, i > 0), s.bs, true);
      }
    } else {
      assert order[..i] == order;
    }
  }

  lemma CutLogReads(s: Store, order: seq<BlockID>, t: nat, nextBlock: BlockID, crc: Checksum)
    requires Settled(s, crc) && Is32Bit(crc) && CopiesAll(s, order) && t <= METADATA_LENGTH
    ensures var r := Recovered(s.bs, BumpTorn(Moved(s, order), t, crc), [], nextBlock, crc);
      && Settled(r, crc)
      && (forall b :: Norm(b, Read(r, b, r.maxID)) == Norm(b, Filled(b, Read(s, b, s.maxID), s.bs, order != [])))
  {
    hide FrameAt, Norm, Moved, TornAt, MainRead, BumpTorn, Filled;
    var main := Moved(s, order);
    var r := Recovered(s.bs, BumpTorn(main, t, crc), [], nextBlock, crc);
    EmptyLog(s.bs, crc);
    RecoveryStops([], s.bs, 0, crc);
    SomeUnfilled(s.bs, order != []);
    forall b
      ensures !TornAt(r.main, s.bs, b)
      ensures Norm(b, Read(r, b, r.maxID)) == Norm(b, Filled(b, Read(s, b, s.maxID), s.bs, order != []))
    {
      NotTornAfter(s, order, b);
      TornByLength(main, r.main, s.bs, b);
      MovedSeen(s, order, b);
      BumpTornUnseen(main, s.bs, t, crc, b);
      if b in s.index {
        IndexedAt(s, b);
      }
    }
  }

  /* ---- which database opens again ---- */

  const DEFAULT_BLOCK_SIZE: nat := 8192

  /** The block size an opening takes from main's header: the default without one,
      none where it is damaged, and then the opening fails. */
  function DetectedSize(main: Bytes, crc: Checksum): Option<nat> {
    if |main| < METADATA_LENGTH then Some(DEFAULT_BLOCK_SIZE)
    else match Decoded(main[..METADATA_LENGTH], crc)
      case None => None
      case Some(m) => Some(PageSize(m))
  }

  /** Byte 16 of a readable header is the power of the block size: 1 for
      power 0, twice as much for one more, 8192 for 13 as for a main file that is
      too short for a header. */
  lemma SizeFromHeader(main: Bytes, main': Bytes, crc: Checksum)
    ensures |main| < 100 ==> DetectedSize(main, crc) == Some(8192)
    ensures 100 <= |main| && DetectedSize(main, crc).Some? ==>
      && (main[16] == 0 ==> DetectedSize(main, crc) == Some(1))
      && (main[16] == 13 ==> DetectedSize(main, crc) == Some(8192))
    ensures 100 <= |main| && 100 <= |main'| && DetectedSize(main, crc).Some? && DetectedSize(main', crc).Some? ==>
      main'[16] as int == main[16] as int + 1 ==>
        DetectedSize(main', crc).value == 2 * DetectedSize(main, crc).value
  {
    hide PageSize, LEValue, Body;
    PowerByte(main, crc);
    PowerByte(main', crc);
    if 100 <= |main| && DetectedSize(main, crc).Some? {
      var m := FieldsOf(main[..METADATA_LENGTH]);
      var m' := if 100 <= |main'| then FieldsOf(main'[..METADATA_LENGTH]) else m;
      SizeDoubles(m, m');
    }
  }

  lemma PowerByte(main: Bytes, crc: Checksum)
    requires METADATA_LENGTH <= |main| ==> |main[..METADATA_LENGTH]| == METADATA_LENGTH
    ensures METADATA_LENGTH <= |main| && DetectedSize(main, crc).Some? ==>
      var m := FieldsOf(main[..METADATA_LENGTH]);
      m.pageSizePower == main[16] as int && DetectedSize(main, crc) == Some(PageSize(m))
  {
    hide PageSize, Body, LEValue;
    if METADATA_LENGTH <= |main| {
      var h := main[..METADATA_LENGTH];
      OneByte(h[16..17]);
      assert h[16..17][0] == main[16];
    }
  }

  /** An intact header opens, whatever follows it. */
  lemma EncodedOpens(m: Metadata, rest: Bytes, crc: Checksum)
    requires InRange(m) && Is32Bit(crc)
    ensures var main := Encoded(m, crc) + rest;
      100 <= |main| && DetectedSize(main, crc).Some? && main[16] as int == m.pageSizePower
  {
    hide Decoded, Encoded, PageSize;
    var main := Encoded(m, crc) + rest;
    assert main[..METADATA_LENGTH] == Encoded(m, crc);
    MetadataRoundTrip(m, crc);
    HeaderLayout(m, crc);
  }

  /** A header torn while its version was counted up is readable before its ninth
      byte and once it is whole; in between only if the checksums of different
      fields agree, up to the ninety-sixth byte with the old one. */
  lemma TornBumpOpens(main: Bytes, t: nat, crc: Checksum)
    requires Is32Bit(crc) && HeaderReadable(main, crc) && t <= METADATA_LENGTH
    ensures var m := Decoded(main[..METADATA_LENGTH], crc).value;
            var h := BumpTorn(main, t, crc)[..METADATA_LENGTH];
      && (t <= 8 || t == METADATA_LENGTH ==> DetectedSize(BumpTorn(main, t, crc), crc) == Some(PageSize(m)))
      && (8 < t <= 96 ==> FieldsOf(h) != m)
      && (8 < t <= 96 ==> (DetectedSize(BumpTorn(main, t, crc), crc).Some? <==> crc(Body(FieldsOf(h))) == crc(Body(m))))
      && (96 < t < METADATA_LENGTH ==> FieldsOf(h) == NextVersion(m))
      && (96 < t < METADATA_LENGTH ==>
            (DetectedSize(BumpTorn(main, t, crc), crc).Some? <==> crc(Body(FieldsOf(h))) == LEValue(h[96..100])))
  {
    hide Decoded, Encoded, Body, FieldsOf, LEValue, Written;
    var h := main[..METADATA_LENGTH];
    var h' := BumpTorn(main, t, crc)[..METADATA_LENGTH];
    TornHeaderBytes(main, t, crc);
    MixedFields(h, h', t, crc);
  }

  /** The header main has after some copies: the log's, once block 0 was copied,
      else what main had of it and zeros. */
  lemma HeaderAfterCopies(s: Store, order: seq<BlockID>)
    requires Indexed(s) && Copies(s, order) && METADATA_LENGTH <= |Moved(s, order)|
    ensures Moved(s, order)[..METADATA_LENGTH] ==
      (if 0 in order then WalRead(s, 0) else Padded(s.main, s.bs, 0))[..METADATA_LENGTH]
  {
    hide WalRead, Moved;
    var main := Moved(s, order);
    if 0 in order {
      MovedThere(s, order, 0);
      assert main[..METADATA_LENGTH] == main[0..s.bs][..METADATA_LENGTH];
    } else {
      MovedRaw(s, order, 0);
      assert main[..METADATA_LENGTH] == Padded(main, s.bs, 0)[..METADATA_LENGTH];
    }
  }

  /** A crash in the first checkpoint of a new database leaves one that opens
      exactly if nothing was copied yet or the header in block 0 was: blocks are
      copied in the order of a map. */
  lemma NewDatabaseOpens(s: Store, order: seq<BlockID>, crc: Checksum)
    requires Indexed(s) && Copies(s, order) && s.main == []
    ensures DetectedSize(Moved(s, order), crc).Some? <==>
      order == [] || (0 in order && HeaderReadable(WalRead(s, 0), crc))
  {
    hide WalRead, Moved, Decoded;
    if order == [] {
      MovedNone(s);
    } else {
      IndexedAt(s, order[0]);
      MovedCovers(s, order);
      HeaderAfterCopies(s, order);
      ZerosUnreadable(s.bs, crc);
      assert Padded(s.main, s.bs, 0) == Zeros(s.bs);
      if 0 in order {
        Listed(s, order, 0);
        PayloadSize(s, 0);
      }
    }
  }

  lemma Listed(s: Store, order: seq<BlockID>, b: BlockID)
    requires Copies(s, order) && b in order
    ensures b in s.index
  {
    var i :| 0 <= i < |order| && order[i] == b;
  }

  /* ---- whole histories ---- */

  datatype Event =
    | Commit(blocks: seq<Block>)
    | Checkpoint(order: seq<BlockID>)
    | CommitCrash(blocks: seq<Block>, k: nat, stage: Stage, nextBlock: BlockID)
    | CheckpointCrash(order: seq<BlockID>, phase: Phase, nextBlock: BlockID)

  ghost predicate CanHappen(s: Store, e: Event, crc: Checksum)
    requires Is32Bit(crc)
  {
    Indexed(s) &&
    match e
    case Commit(blocks) => AllStorable(s, blocks)
    case Checkpoint(order) => CopiesAll(s, order)
    case CommitCrash(blocks, k, stage, _) => CanCrash(s, blocks, k, stage, crc)
    case CheckpointCrash(order, phase, _) => CanStop(s, order, phase)
  }

  /** The engine after an event; after a crash it has been reopened. */
  ghost function After(s: Store, e: Event, crc: Checksum): Store
    requires Is32Bit(crc) && CanHappen(s, e, crc)
  {
    match e
    case Commit(blocks) => Put(s, blocks, crc)
    case Checkpoint(order) =>
      CopiesAllSplits(s, order);
      if order == [] then s else Checkpointed(s, s.maxID, order, [], crc)
    case CommitCrash(blocks, k, stage, nb) => Recovered(s.bs, s.main, CrashWal(s, blocks, k, stage, crc), nb, crc)
    case CheckpointCrash(order, phase, nb) =>
      Recovered(s.bs, StoppedMain(s, order, phase, crc), StoppedWal(s.wal, phase), nb, crc)
  }

  /** What block b should read as after an event that it read as r before: the
      blocks that landed change it, and a checkpoint fills in a block 0 that was
      never written. */
  ghost function SpecRead(s: Store, e: Event, crc: Checksum, b: BlockID, r: Option<Bytes>): Option<Bytes>
    requires Is32Bit(crc) && CanHappen(s, e, crc)
  {
    match e
    case Commit(blocks) => if Names(blocks, b) then Some(LastBuf(blocks, b)) else r
    case CommitCrash(blocks, k, stage, _) =>
      var landed := Landed(s, blocks, k, stage, crc);
      if Names(landed, b) then Some(LastBuf(landed, b)) else r
    case Checkpoint(order) => Filled(b, r, s.bs, order != [])
    case CheckpointCrash(order, _, _) => Filled(b, r, s.bs, order != [])
  }

  lemma EventReads(s: Store, e: Event, crc: Checksum)
    requires Is32Bit(crc) && Settled(s, crc) && CanHappen(s, e, crc)
    ensures Settled(After(s, e, crc), crc)
    ensures var s' := After(s, e, crc);
      forall b :: Norm(b, Read(s', b, s'.maxID)) == Norm(b, SpecRead(s, e, crc, b, Read(s, b, s.maxID)))
  {
    hide Norm, Read, LogOk, IndexIsLog, FrameAt, TornAt, MainRead, Filled, Landed, CanCrash;
    match e {
      case Commit(blocks) =>
        CommitSettled(s, blocks, crc);
        forall b
          ensures Read(Put(s, blocks, crc), b, Put(s, blocks, crc).maxID) ==
            if Names(blocks, b) then Some(LastBuf(blocks, b)) else Read(s, b, s.maxID)
        {
          CommitSeenAfter(s, blocks, crc, b);
        }
      case Checkpoint(order) =>
        NotFilled(s.bs);
        if order != [] {
          CheckpointSettled(s, order, crc);
        }
      case CommitCrash(blocks, k, stage, nb) => CrashInCommit(s, blocks, k, stage, nb, crc);
      case CheckpointCrash(order, phase, nb) => CrashInCheckpoint(s, order, phase, nb, crc);
    }
  }

  lemma SpecNorm(s: Store, e: Event, crc: Checksum, b: BlockID, r: Option<Bytes>, r': Option<Bytes>)
    requires Is32Bit(crc) && CanHappen(s, e, crc) && Norm(b, r) == Norm(b, r')
    ensures Norm(b, SpecRead(s, e, crc, b, r)) == Norm(b, SpecRead(s, e, crc, b, r'))
  {
    hide Norm, Filled, Landed, Names, LastBuf, CanHappen;
    match e {
      case Checkpoint(order) => FilledNorm(b, r, r', s.bs, order != []);
      case CheckpointCrash(order, _, _) => FilledNorm(b, r, r', s.bs, order != []);
      case _ =>
    }
  }

  ghost predicate History(s: Store, events: seq<Event>, crc: Checksum)
    requires Is32Bit(crc)
    decreases |events|
  {
    events == [] || (CanHappen(s, events[0], crc) && History(After(s, events[0], crc), events[1..], crc))
  }

  ghost function Final(s: Store, events: seq<Event>, crc: Checksum): Store
    requires Is32Bit(crc) && History(s, events, crc)
    decreases |events|
  {
    if events == [] then s else Final(After(s, events[0], crc), events[1..], crc)
  }

  ghost function SpecFinal(s: Store, events: seq<Event>, crc: Checksum, b: BlockID, r: Option<Bytes>): Option<Bytes>
    requires Is32Bit(crc) && History(s, events, crc)
    decreases |events|
  {
    if events == [] then r
    else SpecFinal(After(s, events[0], crc), events[1..], crc, b, SpecRead(s, events[0], crc, b, r))
  }

  /** Over every history of commits, full checkpoints and crashes, every block
      reads as a plain map to which exactly the blocks that landed were applied,
      and in which a block 0 that was never written may appear as zeros. */
  lemma {:induction false} HistoryReads(s: Store, events: seq<Event>, crc: Checksum, b: BlockID, r: Option<Bytes>)
    requires Is32Bit(crc) && Settled(s, crc) && History(s, events, crc)
    requires Norm(b, Read(s, b, s.maxID)) == Norm(b, r)
    ensures Settled(Final(s, events, crc), crc)
    ensures Norm(b, Read(Final(s, events, crc), b, Final(s, events, crc).maxID)) ==
      Norm(b, SpecFinal(s, events, crc, b, r))
    decreases |events|
  {
    if events != [] {
      hide Norm, Read, LogOk, IndexIsLog, Settled, After, CanHappen;
      EventReads(s, events[0], crc);
      SpecNorm(s, events[0], crc, b, Read(s, b, s.maxID), r);
      HistoryReads(After(s, events[0], crc), events[1..], crc, b, SpecRead(s, events[0], crc, b, r));
    }
  }

  /* ---- a torn header can commit a stale payload ---- */

  lemma NotBegunKeeps(s: Store, blocks: seq<Block>, k: nat, crc: Checksum)
    requires Settled(s, crc) && AllStorable(s, blocks) && Is32Bit(crc) && k < |blocks|
    ensures LogOk(CrashWal(s, blocks, k, NotBegun, crc), s.bs, s.end, crc)
  {
    hide Settled, Marked, LogOk, CrashWal, CrashedAround, PutFrames;
    SlotBefore(s, blocks, k, crc);
    CrashSlots(s, blocks, k, NotBegun, crc);
    NothingWritten(s, blocks, k, crc);
    CutLogOk(s, blocks, k, CrashWal(s, blocks, k, NotBegun, crc), crc);
  }

  /** A commit that crashes after its first frame leaves that frame in the log. */
  lemma LeavesFrame(bs: nat, stale: Block, other: Block, crc: Checksum)
    requires Is32Bit(crc) && METADATA_LENGTH <= bs && Storable(stale, bs) && Storable(other, bs)
    ensures var s, e := Recovered(bs, [], [], 1, crc), CommitCrash([stale, other], 1, NotBegun, 1);
      && CanHappen(s, e, crc)
      && var s' := After(s, e, crc);
         && Settled(s', crc) && s'.bs == bs && s'.main == [] && s'.end == 0 && s'.index == map[]
         && Full(s'.wal, bs, 0) && FrameAt(s'.wal, bs, 0) == Frame(stale.id, 0, crc(stale.buf), stale.buf)
  {
    hide FrameAt, Full, Settled, LogOk, LogExtended, PutFrames, CrashWal;
    var s, blocks := Recovered(bs, [], [], 1, crc), [stale, other];
    NewSettled(bs, 1, crc);
    var wal := CrashWal(s, blocks, 1, NotBegun, crc);
    SettledIndexed(s, crc);
    CrashInCommit(s, blocks, 1, NotBegun, 1, crc);
    NotBegunKeeps(s, blocks, 1, crc);
    RecoveryStops(wal, bs, 0, crc);
    PutFramesLog(s, blocks, 1, crc);
    NothingWritten(s, blocks, 1, crc);
    ExtendedFirst(s, blocks, wal, crc);
  }

  lemma SettledIndexed(s: Store, crc: Checksum)
    requires Settled(s, crc)
    ensures Indexed(s)
  {
  }

  lemma ExtendedFirst(s: Store, blocks: seq<Block>, wal: Bytes, crc: Checksum)
    requires blocks != [] && LogExtended(s, blocks, 1, wal, crc)
    ensures Full(wal, s.bs, s.end) && FrameAt(wal, s.bs, s.end) == NewFrame(blocks, 0, crc)
  {
    hide FrameAt, Full;
  }

  /** A new database, a commit that crashes after its first frame, and a second
      one whose header is torn after sixteen bytes: the second block then reads
      as the first one's payload, which was never committed. */
  lemma TornHeaderCommitsStale(bs: nat, stale: Block, other: Block, b: Block, crc: Checksum)
    requires Is32Bit(crc) && METADATA_LENGTH <= bs && Storable(stale, bs) && Storable(other, bs) && Storable(b, bs)
    ensures var s, events := Recovered(bs, [], [], 1, crc), TornHistory(stale, other, b);
      && Settled(s, crc) && History(s, events, crc)
      && var s' := Final(s, events, crc);
         Settled(s', crc) && Read(s', b.id, s'.maxID) == Some(stale.buf)
  {
    hide FrameAt, Full, Settled, LogOk, CrashWal, Mistaken, Recovered;
    var s, e1 := Recovered(bs, [], [], 1, crc), CommitCrash([stale, other], 1, NotBegun, 1);
    NewSettled(bs, 1, crc);
    LeavesFrame(bs, stale, other, crc);
    var s1, e2 := After(s, e1, crc), CommitCrash([b], 0, HeaderPart(16), 1);
    MistakenForIntact(s1, [b], 0, 16, crc);
    SettledIndexed(s1, crc);
    CrashInCommit(s1, [b], 0, HeaderPart(16), 1, crc);
    MistakenLog(s1, [b], 0, HeaderPart(16), crc);
    var wal := CrashWal(s1, [b], 0, HeaderPart(16), crc);
    OneFrameRead(bs, [], wal, 1, crc);
    var s2 := After(s1, e2, crc);
    HistoryOfTwo(s, e1, e2, crc);
  }

  ghost function TornHistory(stale: Block, other: Block, b: Block): seq<Event> {
    [CommitCrash([stale, other], 1, NotBegun, 1), CommitCrash([b], 0, HeaderPart(16), 1)]
  }

  lemma HistoryOfTwo(s: Store, e1: Event, e2: Event, crc: Checksum)
    requires Is32Bit(crc) && CanHappen(s, e1, crc) && CanHappen(After(s, e1, crc), e2, crc)
    ensures History(s, [e1, e2], crc) && Final(s, [e1, e2], crc) == After(After(s, e1, crc), e2, crc)
  {
    hide CanHappen, After;
    var s1 := After(s, e1, crc);
    assert [e1, e2][1..] == [e2] && [e2][1..] == [];
    assert History(s1, [e2], crc) && Final(s1, [e2], crc) == After(s1, e2, crc);
  }

  lemma OneFrameRead(bs: nat, main: Bytes, wal: Bytes, nextBlock: BlockID, crc: Checksum)
    requires METADATA_LENGTH <= bs && LogOk(wal, bs, 1, crc)
    ensures var r, f := Recovered(bs, main, wal, nextBlock, crc), FrameAt(wal, bs, 0);
      Indexed(r) && Read(r, f.id, r.maxID) == Some(f.payload)
  {
    hide FrameAt, TornAt, MainRead;
    var r := Recovered(bs, main, wal, nextBlock, crc);
    RecoveryStops(wal, bs, 1, crc);
    LogIndexHolds(wal, bs, 1, FrameAt(wal, bs, 0).id);
  }
}

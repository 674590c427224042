/** What a reader keeps seeing while other transactions run. */
module Snapshots {
  import opened Options
  import opened Bytes
  import opened Files
  import opened Metadata
  import opened WalLog
  import opened WalState
  import opened Checkpointing

  datatype Step =
    | Open
    | Commit(tx: TxID, blocks: seq<Block>)
    | Rollback(tx: TxID)
    | Checkpoint(gate: WalID, moved: seq<BlockID>, kept: seq<BlockID>)

  ghost predicate Enabled(s: Store, e: Step)
    requires Indexed(s)
  {
    match e
    case Open => true
    case Commit(tx, blocks) => tx in s.txs && AllStorable(s, blocks)
    case Rollback(tx) => tx in s.txs
    case Checkpoint(gate, moved, kept) => IsGate(s, gate) && Splits(s, gate, moved, kept)
  }

  ghost function Apply(s: Store, e: Step, crc: Checksum): Store
    requires Indexed(s) && Enabled(s, e) && Is32Bit(crc)
  {
    match e
    case Open => s.(txs := s.txs[s.nextTx := s.maxID], nextTx := s.nextTx + 1)
    case Commit(tx, blocks) => Put(s, blocks, crc).(txs := s.txs - {tx})
    case Rollback(tx) => s.(txs := s.txs - {tx})
    case Checkpoint(gate, moved, kept) =>
      // without a frame that may move, a checkpoint does nothing
      if moved == [] then s else Checkpointed(s, gate, moved, kept, crc)
  }

  /** Steps keep the index sound and watermarks in range; main may end in a torn
      block, as a crash in a checkpoint leaves it. */
  ghost predicate Sound(s: Store) {
    && Indexed(s)
    && (forall t :: t in s.txs ==> t < s.nextTx && s.txs[t] <= s.maxID)
  }

  lemma SameFiles(s: Store, s': Store)
    requires Indexed(s) && s' == s.(txs := s'.txs, nextTx := s'.nextTx)
    ensures Indexed(s')
    ensures forall b, w :: Read(s', b, w) == Read(s, b, w)
  {
    forall b | b in s'.index
      ensures 0 <= b < TWO_63 && Holds(s', s'.index[b], b)
    {
      IndexedAt(s, b);
    }
  }

  lemma StepSound(s: Store, e: Step, crc: Checksum)
    requires Sound(s) && Enabled(s, e) && Is32Bit(crc)
    ensures Sound(Apply(s, e, crc))
    ensures s.maxID <= Apply(s, e, crc).maxID
    ensures forall t :: t in s.txs && !Ends(e, t) ==> t in Apply(s, e, crc).txs && Apply(s, e, crc).txs[t] == s.txs[t]
  {
    hide Read, WalRead, MainRead, Moved, KeptWal, KeptSlots, TornAt;
    match e {
      case Open => SameFiles(s, Apply(s, e, crc));
      case Rollback(tx) => SameFiles(s, Apply(s, e, crc));
      case Commit(tx, blocks) =>
        PutKeeps(s, blocks, crc);
        SameFiles(Put(s, blocks, crc), Apply(s, e, crc));
      case Checkpoint(gate, moved, kept) =>
        if moved != [] {
          CheckpointIndexed(s, gate, moved, kept, crc);
        }
    }
  }

  lemma PutKeeps(s: Store, blocks: seq<Block>, crc: Checksum)
    requires Indexed(s) && AllStorable(s, blocks) && Is32Bit(crc)
    ensures var s' := Put(s, blocks, crc);
      && Indexed(s') && s'.main == s.main && s'.bs == s.bs
      && s'.txs == s.txs && s'.nextTx == s.nextTx && s.maxID <= s'.maxID
    ensures forall b :: b in Put(s, blocks, crc).index ==>
      (b in s.index && Put(s, blocks, crc).index[b] == s.index[b]) || s.maxID <= Put(s, blocks, crc).index[b]
  {
    PutFramesRead(s, blocks, |blocks|, crc);
    PutSameFiles(s, blocks, crc);
    assert blocks[..|blocks|] == blocks;
  }

  predicate Ends(e: Step, t: TxID) {
    (e.Commit? || e.Rollback?) && e.tx == t
  }

  /** A commit that takes block b's only copy away from a reader at watermark w. */
  ghost predicate Clobbers(s: Store, e: Step, b: BlockID, w: WalID) {
    e.Commit? && Names(e.blocks, b) && b in s.index && s.index[b] < w
  }

  /** A checkpoint that makes something of the reader's absent block 0. */
  ghost predicate Fills(s: Store, e: Step, b: BlockID, w: WalID)
    requires Indexed(s)
  {
    e.Checkpoint? && Passes(e.moved, b) && b == 0 && Read(s, b, w) == None
  }

  /** A checkpoint that grows main over another absent block, of which a torn
      write had left a part that is not all zeros. */
  ghost predicate Tears(s: Store, e: Step, b: BlockID, w: WalID)
    requires Indexed(s)
  {
    e.Checkpoint? && Passes(e.moved, b) && 0 < b && Read(s, b, w) == None && !AllZero(Padded(s.main, s.bs, b))
  }

  /** A commit changes another reader's view of a block exactly when it
      clobbers the block and main holds something else. */
  lemma LostExactlyWhenClobbered(s: Store, e: Step, crc: Checksum, t: TxID, b: BlockID)
    requires Sound(s) && Enabled(s, e) && e.Commit? && Is32Bit(crc) && t in s.txs
    ensures Indexed(Apply(s, e, crc))
    ensures Read(Apply(s, e, crc), b, s.txs[t]) != Read(s, b, s.txs[t]) <==>
      Clobbers(s, e, b, s.txs[t]) && MainRead(s.main, s.bs, b) != Some(WalRead(s, b))
  {
    CommitSeenByReader(s, e.blocks, crc, b, s.txs[t]);
    SameFiles(Put(s, e.blocks, crc), Apply(s, e, crc));
  }

  /** One step of others leaves a reader's block alone unless it clobbers it,
      fills it in or grows main over what a torn write left of it; the last two
      always show. */
  lemma StepUnseen(s: Store, e: Step, crc: Checksum, t: TxID, b: BlockID)
    requires Sound(s) && Enabled(s, e) && Is32Bit(crc)
    requires t in s.txs && !Clobbers(s, e, b, s.txs[t])
    ensures Indexed(Apply(s, e, crc))
    ensures Norm(b, Read(Apply(s, e, crc), b, s.txs[t])) == Norm(b, Read(s, b, s.txs[t])) <==>
      !Fills(s, e, b, s.txs[t]) && !Tears(s, e, b, s.txs[t])
  {
    hide Norm, Moved, Padded, Regrown, Checkpointed;
    match e {
      case Open => SameFiles(s, Apply(s, e, crc));
      case Rollback(tx) => SameFiles(s, Apply(s, e, crc));
      case Commit(tx, blocks) =>
        CommitSeenByReader(s, blocks, crc, b, s.txs[t]);
        SameFiles(Put(s, blocks, crc), Apply(s, e, crc));
      case Checkpoint(gate, moved, kept) =>
        if moved != [] {
          CheckpointUnseen(s, gate, moved, kept, crc, b, s.txs[t]);
        }
    }
  }

  /* ---- whole runs ---- */

  ghost predicate CanRun(s: Store, steps: seq<Step>, crc: Checksum)
    requires Is32Bit(crc)
    decreases |steps|
  {
    steps == [] ||
    (Indexed(s) && Enabled(s, steps[0]) && CanRun(Apply(s, steps[0], crc), steps[1..], crc))
  }

  ghost function Run(s: Store, steps: seq<Step>, crc: Checksum): Store
    requires Is32Bit(crc) && CanRun(s, steps, crc)
    decreases |steps|
  {
    if steps == [] then s else Run(Apply(s, steps[0], crc), steps[1..], crc)
  }

  /** No step of the run ends the reader, clobbers block b for it, fills it in or
      grows main over what is left of it. */
  ghost predicate Spares(s: Store, steps: seq<Step>, crc: Checksum, t: TxID, b: BlockID, w: WalID)
    requires Is32Bit(crc) && CanRun(s, steps, crc)
    decreases |steps|
  {
    steps == [] ||
    (!Ends(steps[0], t) && !Clobbers(s, steps[0], b, w) && !Fills(s, steps[0], b, w) && !Tears(s, steps[0], b, w) &&
     Spares(Apply(s, steps[0], crc), steps[1..], crc, t, b, w))
  }

  /** Over every run of opens, commits, rollbacks and checkpoints, partial or
      full, a reader's block stays what it was unless a commit clobbers it or a
      checkpoint fills it in or grows main over what is left of it. */
  lemma {:induction false} SnapshotKept(s: Store, steps: seq<Step>, crc: Checksum, t: TxID, b: BlockID)
    requires Is32Bit(crc) && Sound(s) && CanRun(s, steps, crc) && t in s.txs
    requires Spares(s, steps, crc, t, b, s.txs[t])
    ensures Sound(Run(s, steps, crc))
    ensures Norm(b, Read(Run(s, steps, crc), b, s.txs[t])) == Norm(b, Read(s, b, s.txs[t]))
    decreases |steps|
  {
    if steps != [] {
      hide Norm, Read, Apply, Sound, Enabled, Clobbers, Fills, Tears;
      StepSound(s, steps[0], crc);
      StepUnseen(s, steps[0], crc, t, b);
      SnapshotKept(Apply(s, steps[0], crc), steps[1..], crc, t, b);
    }
  }

  /** A block that was not in the log below the reader's watermark and is not
      torn is spared by every run that does not end the reader, block 0 if the
      reader has one. */
  lemma {:induction false} UnloggedSpared(s: Store, steps: seq<Step>, crc: Checksum, t: TxID, b: BlockID)
    requires Is32Bit(crc) && Sound(s) && CanRun(s, steps, crc) && t in s.txs
    requires forall i :: 0 <= i < |steps| ==> !Ends(steps[i], t)
    requires b in s.index ==> s.txs[t] <= s.index[b]
    requires !TornAt(s.main, s.bs, b) && (b == 0 ==> Read(s, b, s.txs[t]) != None)
    ensures Spares(s, steps, crc, t, b, s.txs[t])
    decreases |steps|
  {
    if steps != [] {
      hide Norm, Read, Apply, Sound, Enabled, TornAt, Fills, Tears, Clobbers;
      StepSound(s, steps[0], crc);
      StaysUnlogged(s, steps[0], crc, t, b);
      StaysWhole(s, steps[0], crc, t, b);
      StepUnseen(s, steps[0], crc, t, b);
      PresentByNorm(Read(Apply(s, steps[0], crc), b, s.txs[t]), Read(s, b, s.txs[t]));
      UnloggedSpared(Apply(s, steps[0], crc), steps[1..], crc, t, b);
    }
  }

  lemma StaysWhole(s: Store, e: Step, crc: Checksum, t: TxID, b: BlockID)
    requires Sound(s) && Enabled(s, e) && Is32Bit(crc) && t in s.txs && !TornAt(s.main, s.bs, b)
    requires b in s.index ==> s.txs[t] <= s.index[b]
    requires b == 0 ==> Read(s, b, s.txs[t]) != None
    ensures !TornAt(Apply(s, e, crc).main, Apply(s, e, crc).bs, b)
    ensures !Clobbers(s, e, b, s.txs[t]) && !Fills(s, e, b, s.txs[t]) && !Tears(s, e, b, s.txs[t])
  {
    hide TornAt, Moved, Padded, AllZero;
    if 0 < b && Read(s, b, s.txs[t]) == None {
      PaddedBlank(s.main, s.bs, b);
    }
    match e {
      case Commit(tx, blocks) => PutKeeps(s, blocks, crc);
      case Checkpoint(gate, moved, kept) =>
        if moved != [] {
          MovedThere(s, moved, b);
          TornByLength(Moved(s, moved), Bumped(Moved(s, moved), crc), s.bs, b);
        }
      case _ =>
    }
  }

  /** Comparing block 0 tells whether it is there. */
  lemma PresentByNorm(r: Option<Bytes>, r': Option<Bytes>)
    ensures Norm(0, r) == Norm(0, r') ==> (r == None <==> r' == None)
  {
  }

  lemma StaysUnlogged(s: Store, e: Step, crc: Checksum, t: TxID, b: BlockID)
    requires Sound(s) && Enabled(s, e) && Is32Bit(crc) && t in s.txs
    requires b in s.index ==> s.txs[t] <= s.index[b]
    ensures b in Apply(s, e, crc).index ==> s.txs[t] <= Apply(s, e, crc).index[b]
  {
    match e {
      case Commit(tx, blocks) => PutKeeps(s, blocks, crc);
      case _ =>
    }
  }

  /** The log holds nothing below watermark w. */
  ghost predicate AllAbove(s: Store, w: WalID) {
    forall b :: b in s.index ==> w <= s.index[b]
  }

  lemma MovesBelow(s: Store, gate: WalID, moved: seq<BlockID>, kept: seq<BlockID>, w: WalID)
    requires Splits(s, gate, moved, kept) && gate <= w
    ensures moved != [] ==> !AllAbove(s, w)
  {
    if moved != [] {
      var b := moved[0];
      assert b in moved && b in s.index && s.index[b] < gate;
    }
  }

  /** While a reader at watermark w is open over such a log, no checkpoint moves
      anything, and every commit is above the reader. */
  lemma StepAbove(s: Store, e: Step, crc: Checksum, t: TxID)
    requires Sound(s) && Enabled(s, e) && Is32Bit(crc) && t in s.txs && AllAbove(s, s.txs[t])
    ensures AllAbove(Apply(s, e, crc), s.txs[t]) && Apply(s, e, crc).main == s.main && Apply(s, e, crc).bs == s.bs
  {
    match e {
      case Commit(tx, blocks) => PutKeeps(s, blocks, crc);
      case Checkpoint(gate, moved, kept) => MovesBelow(s, gate, moved, kept, s.txs[t]);
      case _ =>
    }
  }

  lemma {:induction false} RunAbove(s: Store, steps: seq<Step>, crc: Checksum, t: TxID)
    requires Is32Bit(crc) && Sound(s) && CanRun(s, steps, crc) && t in s.txs && AllAbove(s, s.txs[t])
    requires forall i :: 0 <= i < |steps| ==> !Ends(steps[i], t)
    ensures var s' := Run(s, steps, crc);
      Sound(s') && AllAbove(s', s.txs[t]) && s'.main == s.main && s'.bs == s.bs
    decreases |steps|
  {
    if steps != [] {
      hide Apply, Sound, Enabled, AllAbove;
      StepSound(s, steps[0], crc);
      StepAbove(s, steps[0], crc, t);
      RunAbove(Apply(s, steps[0], crc), steps[1..], crc, t);
    }
  }

  /** A transaction opened while the log's index is empty keeps one constant
      snapshot: whatever the others do, it reads the very bytes main held. */
  lemma SnapshotConstant(s: Store, steps: seq<Step>, crc: Checksum, t: TxID, b: BlockID)
    requires Is32Bit(crc) && Sound(s) && s.index == map[] && t == s.nextTx
    requires CanRun(Apply(s, Open, crc), steps, crc)
    requires forall i :: 0 <= i < |steps| ==> !Ends(steps[i], t)
    ensures Sound(Run(Apply(s, Open, crc), steps, crc))
    ensures Read(Run(Apply(s, Open, crc), steps, crc), b, s.maxID) == MainRead(s.main, s.bs, b)
  {
    StepSound(s, Open, crc);
    RunAbove(Apply(s, Open, crc), steps, crc, t);
  }
}

/** The storage engine's objects, proved against the state functions. */
module Storage {
  import opened Options
  import opened Bytes
  import opened Files
  import opened Metadata
  import opened WalLog
  import opened WalState
  import opened Checkpointing
  import opened Recovery
  import opened PartialCheckpoints

  const CHECKPOINT_TX_INTERVAL: nat := 100
  const CHECKPOINT_WAL_PAGE_LIMIT: nat := 100

  /** When a commit is followed by a checkpoint. */
  predicate Due(s: Store) {
    s.committed > CHECKPOINT_TX_INTERVAL || s.end > CHECKPOINT_WAL_PAGE_LIMIT
  }

  datatype BlockResult = Found(buf: Bytes) | EmptyBlock | ReadError

  function ResultOf(r: Option<Bytes>): BlockResult {
    match r case Some(buf) => Found(buf) case None => EmptyBlock
  }

  /** Free block IDs and watermarks are what they are taken for. */
  ghost predicate Numbered(s: Store) {
    BelowNext(s) && WatermarksKnown(s)
  }

  class WalStorage {
    const crc: Checksum
    const blockSize: nat
    const main: MemoryFile
    const wal: MemoryFile
    var walIndex: map<BlockID, WalID>
    var walOffsets: map<WalID, int>
    var txUsingWalIDs: map<TxID, WalID>
    var maxWalID: WalID
    var nextTxID: TxID
    var walEnd: int
    var nextBlockID: BlockID
    var committedTxCount: nat
    ghost var slots: map<WalID, nat>
    ghost var end: nat

    ghost function State(): Store
      reads this, main, wal
    {
      Store(blockSize, main.data, wal.data, walIndex, slots, txUsingWalIDs, maxWalID, nextTxID, end, nextBlockID,
            committedTxCount)
    }

    /** Byte offsets are slot numbers times the frame size. */
    ghost predicate OffsetsAreSlots()
      reads this
    {
      walEnd == Off(end, FrameSize(blockSize)) && OffsetsMatch(walOffsets, slots, FrameSize(blockSize))
    }

    /** The index and the log fit together. */
    ghost predicate Sane()
      reads this, main, wal
    {
      Is32Bit(crc) && main != wal && Indexed(State()) && OffsetsAreSlots()
    }

    ghost predicate Valid()
      reads this, main, wal
    {
      Sane() && Numbered(State())
    }

    /** Opens a database on two existing files, replaying the log. */
    constructor (main: MemoryFile, wal: MemoryFile, blockSize: nat, crc: Checksum)
      requires Is32Bit(crc) && main != wal && METADATA_LENGTH <= blockSize
      requires NamesBlocks(wal.data, blockSize, crc)
      ensures Valid() && this.main == main && this.wal == wal
      ensures main.data == old(main.data) && wal.data == old(wal.data)
      ensures State() == Recovered(blockSize, main.data, wal.data, nextBlockID, crc)
      ensures this.blockSize == blockSize && this.crc == crc
      ensures SoundFiles(blockSize, main.data, wal.data, crc) ==> Settled(State(), crc)
      ensures |main.data| / blockSize <= nextBlockID
      ensures nextBlockID == 1 || nextBlockID == |main.data| / blockSize || nextBlockID - 1 in walIndex
    {
      hide Indexed, OffsetsAreSlots, Is32Bit, Recovered, NamesBlocks, SoundFiles, Settled;
      this.main, this.wal, this.blockSize, this.crc := main, wal, blockSize, crc;
      walIndex, walOffsets, txUsingWalIDs := map[], map[], map[];
      maxWalID, nextTxID, walEnd, committedTxCount := 0, 0, 0, 0;
      nextBlockID := 1;
      slots, end := map[], 0;
      new;
      var n := |main.data| / blockSize;
      if n > nextBlockID {
        nextBlockID := n;
      }
      MainBelow(main.data, blockSize, n);
      Recover();
      ghost var s0 := State();
      RaiseNextBlock();
      RecoveredNext(blockSize, main.data, wal.data, s0.nextBlock, nextBlockID, crc);
      if SoundFiles(blockSize, main.data, wal.data, crc) {
        SoundOpens(blockSize, main.data, wal.data, nextBlockID, crc);
      }
    }

    /** Recovered frames may name blocks past main's end; never allocate below them. */
    method RaiseNextBlock()
      requires Sane()
      modifies `nextBlockID
      ensures Sane() && State() == old(State()).(nextBlock := nextBlockID)
      ensures old(nextBlockID) <= nextBlockID && forall b :: b in walIndex ==> b < nextBlockID
      ensures nextBlockID == old(nextBlockID) || nextBlockID - 1 in walIndex
    {
      hide Indexed, OffsetsMatch;
      ghost var s0 := State();
      var ids := walIndex.Keys;
      while ids != {}
        invariant ids <= walIndex.Keys && old(nextBlockID) <= nextBlockID
        invariant Sane() && State() == s0.(nextBlock := nextBlockID)
        invariant forall b :: b in walIndex && b !in ids ==> b < nextBlockID
        invariant nextBlockID == old(nextBlockID) || nextBlockID - 1 in walIndex
        decreases ids
      {
        ghost var s1 := State();
        var id := Pick(ids);
        ids := ids - {id};
        if id >= nextBlockID {
          nextBlockID := id + 1;
        }
        SameIndexed(s1, State());
      }
    }

    /** Rebuilds the index from every frame up to the last complete commit. */
    method Recover()
      requires Is32Bit(crc) && main != wal && METADATA_LENGTH <= blockSize
      requires NamesBlocks(wal.data, blockSize, crc)
      modifies `walIndex, `walOffsets, `maxWalID, `walEnd, `slots, `end
      ensures State() == Recovered(blockSize, main.data, wal.data, nextBlockID, crc).(
        txs := txUsingWalIDs, nextTx := nextTxID, committed := committedTxCount)
      ensures Sane()
    {
      hide Indexed, OffsetsMatch, Recovered, FrameAt, FrameOf, BE, BEValue, Scanned, NamesBlocks;
      walIndex, walOffsets, maxWalID := map[], map[], 0;
      ghost var j, c := 0, 0;
      var size := |wal.data|;
      var pendingIndex: map<BlockID, WalID> := map[];
      var pendingOffsets: map<WalID, int> := map[];
      var offset, lastCommitEnd := 0, 0;
      ScanStarts(wal.data, blockSize, crc);
      while offset + FRAME_HEADER <= size
        invariant size == |wal.data| && 0 <= offset
        invariant Scanned(wal.data, blockSize, crc, j, c, offset, maxWalID, pendingIndex, pendingOffsets,
                          walIndex, walOffsets, lastCommitEnd)
        decreases size - offset
      {
        ScanAt(wal.data, blockSize, crc, j, c, offset, maxWalID, pendingIndex, pendingOffsets, walIndex, walOffsets,
               lastCommitEnd);
        var header, okHeader := wal.ReadAt(FRAME_HEADER, offset);
        if !okHeader {
          break;
        }
        var blockID := ToInt64(BEValue(header[0..8]));
        var commitMarker := BEValue(header[8..16]);
        var storedChecksum := BEValue(header[16..24]) % TWO_32;
        if offset + FRAME_HEADER + blockSize > size {
          break;
        }
        var buf, okBuf := wal.ReadAt(blockSize, offset + FRAME_HEADER);
        if !okBuf {
          break;
        }
        FrameRead(wal.data, blockSize, j, header, buf);
        if crc(buf) != storedChecksum {
          break;
        }
        ScanSteps(wal.data, blockSize, crc, j, c, offset, maxWalID, pendingIndex, pendingOffsets, walIndex, walOffsets,
                  lastCommitEnd);
        var walID := maxWalID;
        maxWalID := maxWalID + 1;
        pendingIndex := pendingIndex[blockID := walID];
        pendingOffsets := pendingOffsets[walID := offset];
        offset := offset + FRAME_HEADER + blockSize;
        j := j + 1;
        if commitMarker != 0 {
          walIndex := walIndex + pendingIndex;
          walOffsets := walOffsets + pendingOffsets;
          lastCommitEnd := offset;
          c := j;
        }
      }
      ScanAt(wal.data, blockSize, crc, j, c, offset, maxWalID, pendingIndex, pendingOffsets, walIndex, walOffsets,
             lastCommitEnd);
      walEnd := lastCommitEnd;
      slots, end := OwnSlots(c), c;
      ScanEnds(main.data, wal.data, blockSize, nextBlockID, crc, j, c, offset, maxWalID, pendingIndex, pendingOffsets,
               walIndex, walOffsets, lastCommitEnd);
      SameIndexed(Recovered(blockSize, main.data, wal.data, nextBlockID, crc), State());
    }

    method NewTxStorage() returns (tx: TxStorage)
      requires Valid()
      modifies `txUsingWalIDs, `nextTxID
      ensures Valid() && fresh(tx) && tx.wal == this && tx.Active()
      ensures tx.id == old(nextTxID) && tx.dirtyBlocks == map[]
      ensures State() ==
        old(State()).(txs := old(txUsingWalIDs)[old(nextTxID) := old(maxWalID)], nextTx := old(nextTxID) + 1)
      ensures Settled(old(State()), crc) ==> Settled(State(), crc)
    {
      hide Indexed, MainRead, Settled;
      tx := new TxStorage(nextTxID, this, maxWalID);
      nextTxID := nextTxID + 1;
      txUsingWalIDs := txUsingWalIDs[tx.id := tx.maxWalBlock];
      SameIndexed(old(State()), State());
      StaysSettled(old(State()), State(), crc);
    }

    method ForgetTx(id: TxID)
      requires Valid()
      modifies `txUsingWalIDs
      ensures Valid() && State() == old(State()).(txs := old(txUsingWalIDs) - {id})
    {
      txUsingWalIDs := txUsingWalIDs - {id};
      SameIndexed(old(State()), State());
    }

    method ReserveBlock(id: BlockID)
      requires Valid()
      modifies `nextBlockID
      ensures Valid() && nextBlockID == Later(old(nextBlockID), id)
      ensures State() == old(State()).(nextBlock := nextBlockID)
    {
      if id >= nextBlockID {
        nextBlockID := id + 1;
      }
      SameIndexed(old(State()), State());
    }

    method NextBlockID() returns (id: BlockID)
      ensures id == nextBlockID
    {
      id := nextBlockID;
    }

    /** Reads a block as of watermark toMax. */
    method GetBlock(id: BlockID, toMax: WalID) returns (r: BlockResult)
      requires Valid()
      ensures 0 <= id ==> r == ResultOf(Read(State(), id, toMax))
    {
      hide FrameOf;
      if id in walIndex && walIndex[id] < toMax {
        var walID := walIndex[id];
        IndexedAt(State(), id);
        var buf, ok := wal.ReadAt(blockSize, walOffsets[walID] + FRAME_HEADER);
        PayloadBytes(wal.data, blockSize, slots[walID]);
        return if ok then Found(buf) else ReadError;
      }
      var start := id * blockSize;
      if 0 <= id {
        OffTimes(id, blockSize);
      }
      if start + blockSize > |main.data| {
        return EmptyBlock;
      }
      var buf, ok := main.ReadAt(blockSize, start);
      r := if ok then Found(buf) else ReadError;
    }

    /** Appends the blocks as one commit; refuses blocks of the wrong size. */
    method PutBlocks(blocks: seq<Block>) returns (ok: bool)
      requires Valid()
      requires forall i :: 0 <= i < |blocks| ==> 0 <= blocks[i].id < TWO_63
      modifies this, wal
      ensures Valid()
      ensures ok <==> forall i :: 0 <= i < |blocks| ==> |blocks[i].buf| == blockSize
      ensures State() == if ok then Put(old(State()), blocks, crc) else old(State())
    {
      hide Indexed, OffsetsMatch, PutFrame, PutFrames, Is32Bit, Numbered;
      ghost var s0 := State();
      if |blocks| == 0 {
        return true;
      }
      var sized := AllSized(blocks);
      if !sized {
        return false;
      }
      var offset := walEnd;
      var i := 0;
      PutNone(s0, blocks, crc);
      while i < |blocks|
        invariant i <= |blocks| && end == s0.end + i
        invariant State() == PutFrames(s0, blocks, i, crc) && Indexed(State())
        invariant offset == Off(end, FrameSize(blockSize)) && OffsetsMatch(walOffsets, slots, FrameSize(blockSize))
      {
        ghost var s1 := State();
        AppendFrame(blocks[i], i == |blocks| - 1, offset);
        PutFrameRead(s1, blocks[i], i == |blocks| - 1, crc);
        PutOneMore(s0, blocks, i, crc);
        offset := offset + FRAME_HEADER + blockSize;
        i := i + 1;
      }
      walEnd := offset;
      committedTxCount := committedTxCount + 1;
      PutDone(s0, blocks, State(), crc);
      PutNumbered(s0, blocks, crc);
      ok := true;
    }

    method AllSized(blocks: seq<Block>) returns (ok: bool)
      ensures ok <==> forall i :: 0 <= i < |blocks| ==> |blocks[i].buf| == blockSize
    {
      var k := 0;
      while k < |blocks|
        invariant k <= |blocks| && forall i :: 0 <= i < k ==> |blocks[i].buf| == blockSize
      {
        if |blocks[k].buf| != blockSize {
          return false;
        }
        k := k + 1;
      }
      ok := true;
    }

    /** Writes one frame, header first, and publishes it in the index. */
    method AppendFrame(block: Block, last: bool, offset: int)
      requires Is32Bit(crc) && main != wal && Storable(block, blockSize)
      requires offset == Off(end, FrameSize(blockSize)) && OffsetsMatch(walOffsets, slots, FrameSize(blockSize))
      modifies this, wal
      ensures State() == PutFrame(old(State()), block, last, crc)
      ensures walEnd == old(walEnd) && end == old(end) + 1
      ensures OffsetsMatch(walOffsets, slots, FrameSize(blockSize))
    {
      hide HeaderBytes, Written, Off, OffsetsMatch, Is32Bit, WithFrame;
      OffsetsGrow(walOffsets, slots, maxWalID, end, FrameSize(blockSize));
      var walID := maxWalID;
      maxWalID := maxWalID + 1;
      WriteFrame(block, last, offset, end);
      walIndex := walIndex[block.id := walID];
      walOffsets := walOffsets[walID := offset];
      slots, end := slots[walID := end], end + 1;
      if block.id >= nextBlockID {
        nextBlockID := block.id + 1;
      }
    }

    method WriteFrame(block: Block, last: bool, offset: int, ghost slot: nat)
      requires offset == Off(slot, FrameSize(blockSize))
      modifies wal
      ensures wal.data == WithFrame(old(wal.data), blockSize, slot, block, last, crc)
    {
      hide HeaderBytes, Written, Off, BE, WithStage, WithFrame;
      var header := BE(block.id % TWO_64, 8) + BE(if last then 1 else 0, 8) + BE(crc(block.buf), 8);
      HeaderParts(block.id, MarkerOf(last), crc(block.buf));
      FrameWrites(wal.data, blockSize, slot, block, last, crc);
      var okHeader := wal.WriteAt(header, offset);
      // a crash here leaves the header without its payload
      assert wal.data == WithStage(old(wal.data), blockSize, slot, block, last, crc, HeaderOnly);
      var okPayload := wal.WriteAt(block.buf, offset + FRAME_HEADER);
    }

    method ShouldCheckpoint() returns (should: bool)
      requires Valid()
      ensures should <==> Due(State())
    {
      if committedTxCount > CHECKPOINT_TX_INTERVAL {
        return true;
      }
      OffTimes(end, FrameSize(blockSize));
      var numWalPages := walEnd / FrameSize(blockSize);
      Quotient(end, FrameSize(blockSize));
      should := numWalPages > CHECKPOINT_WAL_PAGE_LIMIT;
    }
  
    /** The smallest watermark of an active transaction, or the newest WAL ID. */
    method Gate() returns (gate: WalID)
      ensures IsGate(State(), gate)
    {
      gate := maxWalID;
      var ids := txUsingWalIDs.Keys;
      while ids != {}
        invariant ids <= txUsingWalIDs.Keys && gate <= maxWalID
        invariant forall t :: t in txUsingWalIDs && t !in ids ==> gate <= txUsingWalIDs[t]
        invariant gate == maxWalID || exists t :: t in txUsingWalIDs && txUsingWalIDs[t] == gate
        decreases ids
      {
        var id := Pick(ids);
        ids := ids - {id};
        if txUsingWalIDs[id] < gate {
          gate := txUsingWalIDs[id];
        }
      }
    }

    /** Moves every frame no reader still needs into main and rewrites the log
        with the rest. Fails only when main's header cannot be read, after
        everything was moved. */
    method Checkpoint() returns (ok: bool, ghost gate: WalID, ghost moved: seq<BlockID>, ghost kept: seq<BlockID>)
      requires Valid()
      modifies this, main, wal
      ensures Valid()
      ensures Indexed(old(State())) && IsGate(old(State()), gate) && Splits(old(State()), gate, moved, kept)
      ensures State() == if moved == [] then old(State()) else Checkpointed(old(State()), gate, moved, kept, crc)
      ensures ok <==> moved == [] || HeaderReadable(Moved(old(State()), moved), crc)
    {
      hide Indexed, OffsetsMatch, Is32Bit, KeptWal, KeptSlots;
      hide HeaderReadable, Moved, IsGate, Splits, Checkpointed, IndexOf;
      hide Truncated, Bumped, Off, Numbered;
      ghost var s0 := State();
      var g := Gate();
      gate := g;
      var safe := set b | b in walIndex && walIndex[b] < g;
      var stay := set b | b in walIndex && walIndex[b] >= g;
      if safe == {} {
        kept := OrderOf(stay);
        ok, moved := true, [];
        SplitsBy(s0, g, safe, stay, moved, kept);
        return;
      }
      moved := CopySafe(safe);
      MovedSome(safe, moved);
      kept := RewriteLog(stay, s0);
      SplitsBy(s0, g, safe, stay, moved, kept);
      var bumped := BumpFileChangeCounter();
      if bumped {
        committedTxCount := 0;
      }
      ok := bumped;
      CheckpointDone(s0, gate, moved, kept, crc, State());
    }

    /** Keeps only the frames of the given blocks in the log. */
    method RewriteLog(stay: set<BlockID>, ghost s0: Store) returns (ghost kept: seq<BlockID>)
      requires KeptBase(s0) && stay <= walIndex.Keys
      modifies wal, `walIndex, `walOffsets, `walEnd, `slots, `end
      ensures (forall b :: b in stay <==> b in kept) && (forall i :: 0 <= i < |kept| ==> kept[i] in s0.index)
      ensures wal.data == Truncated(KeptWal(s0, kept, |kept|), Off(|kept|, FrameSize(blockSize)))
      ensures IndexOf(s0, kept, walIndex) && slots == KeptSlots(s0, kept, |kept|) && end == |kept|
      ensures walEnd == Off(end, FrameSize(blockSize)) && OffsetsMatch(walOffsets, slots, FrameSize(blockSize))
    {
      hide Indexed, OffsetsMatch, KeptWal, KeptSlots, IndexOf, Off;
      var entries := ReadKept(stay, s0);
      kept := IDs(entries);
      var newIndex, newOffsets, offset := WriteKept(entries, s0);
      KeptLength(s0, kept, |kept|);
      var okCut := wal.Truncate(offset);
      walIndex, walOffsets, walEnd := newIndex, newOffsets, offset;
      slots, end := KeptSlots(s0, kept, |kept|), |kept|;
    }

    /** Copies the frames of the given blocks into main, in any order. */
    method CopySafe(safe: set<BlockID>) returns (ghost moved: seq<BlockID>)
      requires Valid() && safe <= walIndex.Keys
      modifies main
      ensures (forall i :: 0 <= i < |moved| ==> moved[i] in walIndex) && (forall b :: b in safe <==> b in moved)
      ensures main.data == Moved(old(State()), moved)
    {
      hide Indexed, Is32Bit, Off, Written, Moved, FrameAt, Full, WalRead;
      ghost var s0 := State();
      moved := [];
      MovedNone(s0);
      var ids := safe;
      while ids != {}
        invariant ids <= safe
        invariant (forall i :: 0 <= i < |moved| ==> moved[i] in walIndex)
        invariant (forall b :: b in safe - ids <==> b in moved)
        invariant main.data == Moved(s0, moved)
        decreases ids
      {
        var id := Pick(ids);
        ids := ids - {id};
        CopyFrame(id, s0);
        MovedMore(s0, moved, id);
        moved := moved + [id];
      }
    }

    method CopyFrame(id: BlockID, ghost s0: Store)
      requires KeptBase(s0) && id in walIndex
      modifies main
      ensures main.data == Written(old(main.data), Off(id, blockSize), WalRead(s0, id))
    {
      hide Indexed, Is32Bit, Off, Written;
      IndexedAt(s0, id);
      FrameInside(s0, id);
      PayloadBytes(wal.data, blockSize, slots[walIndex[id]]);
      var buf, okRead := wal.ReadAt(blockSize, walOffsets[walIndex[id]] + FRAME_HEADER);
      OffTimes(id, blockSize);
      TimesMono(0, id, blockSize);
      var okWrite := main.WriteAt(buf, id * blockSize);
    }

    /** The log and its index are still those of s0. */
    ghost predicate KeptBase(s0: Store)
      reads this, wal
    {
      && main != wal && Indexed(s0) && s0.wal == wal.data && s0.index == walIndex && s0.slots == slots
      && s0.bs == blockSize
      && OffsetsMatch(walOffsets, slots, FrameSize(blockSize))
    }

    /** Buffers the frames that must stay, so that rewriting the log from its
        start never clobbers one that was not read yet. */
    method ReadKept(stay: set<BlockID>, ghost s0: Store) returns (entries: seq<KeptFrame>)
      requires KeptBase(s0) && stay <= walIndex.Keys
      ensures KeptEntries(s0, entries)
      ensures forall b :: b in stay <==> b in IDs(entries)
    {
      hide Indexed, Off, SlotBytes;
      entries := [];
      var ids := stay;
      while ids != {}
        invariant ids <= stay && KeptEntries(s0, entries)
        invariant forall b :: b in stay - ids <==> b in IDs(entries)
        decreases ids
      {
        var id := Pick(ids);
        ids := ids - {id};
        FrameInside(s0, id);
        var buf, okRead := wal.ReadAt(FRAME_HEADER + blockSize, walOffsets[walIndex[id]]);
        assert IDs(entries + [KeptFrame(id, walIndex[id], buf)]) == IDs(entries) + [id];
        entries := entries + [KeptFrame(id, walIndex[id], buf)];
      }
    }

    /** Writes the kept frames from the start of the log. */
    method WriteKept(entries: seq<KeptFrame>, ghost s0: Store)
      returns (newIndex: map<BlockID, WalID>, newOffsets: map<WalID, int>, offset: int)
      requires KeptEntries(s0, entries) && s0.wal == wal.data && s0.bs == blockSize
      modifies wal
      ensures wal.data == KeptWal(s0, IDs(entries), |entries|)
      ensures offset == Off(|entries|, FrameSize(blockSize))
      ensures OffsetsMatch(newOffsets, KeptSlots(s0, IDs(entries), |entries|), FrameSize(blockSize))
      ensures IndexOf(s0, IDs(entries), newIndex)
    {
      hide Indexed, OffsetsMatch, SlotBytes, Written, KeptWal, KeptSlots, Off;
      newIndex, newOffsets, offset := map[], map[], 0;
      var i := 0;
      KeptNone(s0, IDs(entries));
      while i < |entries|
        invariant i <= |entries|
        invariant wal.data == KeptWal(s0, IDs(entries), i)
        invariant offset == Off(i, FrameSize(blockSize))
        invariant OffsetsMatch(newOffsets, KeptSlots(s0, IDs(entries), i), FrameSize(blockSize))
        invariant IndexOf(s0, IDs(entries)[..i], newIndex)
      {
        hide IndexOf;
        var kf := entries[i];
        OffsetsGrow(newOffsets, KeptSlots(s0, IDs(entries), i), kf.walID, i, FrameSize(blockSize));
        KeptMore(s0, IDs(entries), i);
        IndexOfMore(s0, IDs(entries), i, newIndex);
        var okWrite := wal.WriteAt(kf.buf, offset);
        newIndex := newIndex[kf.id := kf.walID];
        newOffsets := newOffsets[kf.walID := offset];
        offset := offset + FRAME_HEADER + blockSize;
        i := i + 1;
      }
      assert IDs(entries)[..|entries|] == IDs(entries);
    }

    /** Counts main's file version up; refuses a header it cannot decode. */
    method BumpFileChangeCounter() returns (ok: bool)
      requires Is32Bit(crc)
      modifies main
      ensures main.data == Bumped(old(main.data), crc)
      ensures ok <==> HeaderReadable(old(main.data), crc)
    {
      hide Written, Decoded, Encoded;
      var h, read := main.ReadAt(METADATA_LENGTH, 0);
      if !read {
        return false;
      }
      assert h == main.data[..METADATA_LENGTH];
      var m := Decoded(h, crc);
      if m.None? {
        return false;
      }
      ok := main.WriteAt(Encoded(NextVersion(m.value), crc), 0);
    }
  }

  /** Opens a database on two files with the block size of main's header, and
      fails exactly where there is a header that cannot be decoded. */
  method Open(main: MemoryFile, wal: MemoryFile, crc: Checksum) returns (r: Option<WalStorage>)
    requires Is32Bit(crc) && main != wal
    requires forall bs :: DetectedSize(main.data, crc) == Some(bs) ==>
                            METADATA_LENGTH <= bs && NamesBlocks(wal.data, bs, crc)
    ensures r == None <==> DetectedSize(main.data, crc) == None
    ensures |main.data| < 100 ==> r.Some? && r.value.blockSize == 8192
    ensures main.data == old(main.data) && wal.data == old(wal.data)
    ensures r.Some? ==>
              && r.value.Valid() && fresh(r.value) && r.value.main == main && r.value.wal == wal && r.value.crc == crc
              && DetectedSize(main.data, crc) == Some(r.value.blockSize)
              && r.value.State() == Recovered(r.value.blockSize, main.data, wal.data, r.value.nextBlockID, crc)
              && (SoundFiles(r.value.blockSize, main.data, wal.data, crc) ==> Settled(r.value.State(), crc))
  {
    hide Indexed, Is32Bit, Recovered, NamesBlocks, SoundFiles, Settled, Decoded;
    var bs := DetectedSize(main.data, crc);
    if bs == None {
      return None;
    }
    var s := new WalStorage(main, wal, bs.value, crc);
    r := Some(s);
  }

  datatype KeptFrame = KeptFrame(id: BlockID, walID: WalID, buf: Bytes)

  ghost function IDs(entries: seq<KeptFrame>): (ids: seq<BlockID>)
    ensures |ids| == |entries| && forall i :: 0 <= i < |entries| ==> ids[i] == entries[i].id
  {
    seq(|entries|, i requires 0 <= i < |entries| => entries[i].id)
  }

  ghost predicate KeptEntries(s: Store, entries: seq<KeptFrame>) {
    && Indexed(s)
    && (forall i :: 0 <= i < |entries| ==>
          && entries[i].id in s.index && entries[i].walID == s.index[entries[i].id]
          && entries[i].buf == SlotBytes(s, entries[i].id))
  }

  /** One transaction: a watermark, and the blocks it wrote but did not commit. */
  class TxStorage {
    const id: TxID
    const wal: WalStorage
    const maxWalBlock: WalID
    var dirtyBlocks: map<BlockID, Bytes>

    constructor (id: TxID, wal: WalStorage, maxWalBlock: WalID)
      ensures this.id == id && this.wal == wal && this.maxWalBlock == maxWalBlock && dirtyBlocks == map[]
    {
      this.id, this.wal, this.maxWalBlock, dirtyBlocks := id, wal, maxWalBlock, map[];
    }

    ghost predicate Active()
      reads wal
    {
      id in wal.txUsingWalIDs && wal.txUsingWalIDs[id] == maxWalBlock
    }

    /** Its own writes first, otherwise the snapshot it opened with. */
    method GetBlock(b: BlockID) returns (r: BlockResult)
      requires wal.Valid()
      ensures b in dirtyBlocks ==> r == Found(dirtyBlocks[b])
      ensures b !in dirtyBlocks && 0 <= b ==> r == ResultOf(Read(wal.State(), b, maxWalBlock))
    {
      if b in dirtyBlocks {
        return Found(dirtyBlocks[b]);
      }
      r := wal.GetBlock(b, maxWalBlock);
    }

    method PutBlock(b: BlockID, buf: Bytes)
      modifies this
      ensures dirtyBlocks == old(dirtyBlocks)[b := buf]
    {
      dirtyBlocks := dirtyBlocks[b := buf];
    }

    /** Publishes all of the transaction's blocks at once: the next reader sees
        exactly them over what it saw before, and another active reader loses
        exactly the versions the log held for it. A block of the wrong size
        refuses the whole commit. An error after the frames are written comes
        from the checkpoint and leaves the commit in place. With no other
        transaction open a settled engine stays settled, and is what the crash
        histories say it is after the commit and its checkpoint. */
    method Commit() returns (ok: bool, ghost o: Outcome)
      requires wal.Valid()
      requires forall b :: b in dirtyBlocks ==> 0 <= b < TWO_63
      modifies this, wal, wal.main, wal.wal
      ensures wal.Valid() && Indexed(old(wal.State()))
      ensures !AllOfSize(old(dirtyBlocks), wal.blockSize) ==>
        !ok && wal.State() == old(wal.State()) && dirtyBlocks == old(dirtyBlocks)
      ensures AllOfSize(old(dirtyBlocks), wal.blockSize) ==>
        dirtyBlocks == map[] && CommittedAs(old(wal.State()), old(dirtyBlocks), id, o, wal.State(), ok, wal.crc)
      ensures AllOfSize(old(dirtyBlocks), wal.blockSize) ==>
        Published(old(wal.State()), old(dirtyBlocks), id, o.moved, wal.State())
      ensures AllOfSize(old(dirtyBlocks), wal.blockSize) ==>
        Settled(old(wal.State()), wal.crc) && old(wal.txUsingWalIDs).Keys <= {id} ==>
          Serial(old(wal.State()), o, wal.State(), wal.crc)
    {
      hide Indexed, AllOfSize, Published, Put, Checkpointed, Splits, IsGate;
      hide HeaderReadable, Moved, Settled, Serial, CommittedAs, Lists, Due;
      ghost var s0, dirty := wal.State(), dirtyBlocks;
      var blocks := Listed();
      ListedNames(blocks, dirty);
      ListedSizes(blocks, dirty, wal.blockSize);
      o := Outcome(blocks, 0, [], []);
      ok := wal.PutBlocks(blocks);
      if !ok {
        return;
      }
      dirtyBlocks := map[];
      PutKept(s0, blocks, wal.crc);
      wal.ForgetTx(id);
      ghost var s1 := wal.State();
      CommitPublished(s0, blocks, dirty, id, s1, wal.crc);
      PublishedAtOnce(s0, dirty, id, s1);
      var should := wal.ShouldCheckpoint();
      if should {
        ghost var gate, moved, kept;
        ok, gate, moved, kept := wal.Checkpoint();
        o := Outcome(blocks, gate, moved, kept);
        if moved != [] {
          StillPublished(s0, dirty, id, s1, gate, moved, kept, wal.crc);
        }
      }
      CommitDone(s0, dirty, id, o, s1, wal.State(), ok, wal.crc);
    }

    /** The dirty blocks, each once, in the order the map happens to give. */
    method Listed() returns (blocks: seq<Block>)
      ensures Lists(blocks, dirtyBlocks, {})
    {
      blocks := [];
      var ids := dirtyBlocks.Keys;
      while ids != {}
        invariant ids <= dirtyBlocks.Keys && Lists(blocks, dirtyBlocks, ids)
        decreases ids
      {
        var b := Pick(ids);
        ids := ids - {b};
        ListsMore(blocks, dirtyBlocks, ids, b);
        blocks := blocks + [Block(b, dirtyBlocks[b])];
      }
    }

    method Rollback()
      requires wal.Valid()
      modifies this, wal`txUsingWalIDs
      ensures wal.Valid() && dirtyBlocks == map[]
      ensures wal.State() == old(wal.State()).(txs := old(wal.txUsingWalIDs) - {id})
      ensures Settled(old(wal.State()), wal.crc) ==> Settled(wal.State(), wal.crc)
    {
      hide Settled, Indexed;
      StaysSettled(wal.State(), wal.State().(txs := wal.txUsingWalIDs - {id}), wal.crc);
      dirtyBlocks := map[];
      wal.ForgetTx(id);
    }
  }

  /* ---- what a commit publishes ---- */

  ghost predicate AllOfSize(dirty: map<BlockID, Bytes>, bs: nat) {
    forall b :: b in dirty ==> |dirty[b]| == bs
  }

  /** blocks has every dirty block but those of rest, with its buffer. */
  ghost predicate Lists(blocks: seq<Block>, dirty: map<BlockID, Bytes>, rest: set<BlockID>) {
    && (forall i :: 0 <= i < |blocks| ==>
          blocks[i].id in dirty && blocks[i].id !in rest && blocks[i].buf == dirty[blocks[i].id])
    && (forall i, j :: 0 <= i < j < |blocks| ==> blocks[i].id != blocks[j].id)
    && (forall b :: b in dirty && b !in rest ==> Names(blocks, b))
  }

  lemma ListsMore(blocks: seq<Block>, dirty: map<BlockID, Bytes>, rest: set<BlockID>, b: BlockID)
    requires b in dirty && b !in rest && Lists(blocks, dirty, rest + {b})
    ensures Lists(blocks + [Block(b, dirty[b])], dirty, rest)
  {
    var blocks' := blocks + [Block(b, dirty[b])];
    forall c | c in dirty && c !in rest
      ensures Names(blocks', c)
    {
      if c == b {
        assert blocks'[|blocks|].id == b;
      } else {
        var i :| 0 <= i < |blocks| && blocks[i].id == c;
        assert blocks'[i].id == c;
      }
    }
  }

  lemma ListedNames(blocks: seq<Block>, dirty: map<BlockID, Bytes>)
    requires Lists(blocks, dirty, {})
    ensures forall b :: b in dirty <==> Names(blocks, b)
    ensures forall b :: Names(blocks, b) ==> b in dirty && LastBuf(blocks, b) == dirty[b]
  {
    forall b | Names(blocks, b)
      ensures b in dirty && LastBuf(blocks, b) == dirty[b]
    {
      LastIsListed(blocks, dirty, b);
    }
  }

  lemma {:induction false} LastIsListed(blocks: seq<Block>, dirty: map<BlockID, Bytes>, b: BlockID)
    requires Names(blocks, b)
    requires forall i :: 0 <= i < |blocks| ==> blocks[i].id in dirty && blocks[i].buf == dirty[blocks[i].id]
    ensures b in dirty && LastBuf(blocks, b) == dirty[b]
  {
    var n := |blocks| - 1;
    if blocks[n].id != b {
      var i :| 0 <= i < |blocks| && blocks[i].id == b;
      assert blocks[..n][i].id == b;
      LastIsListed(blocks[..n], dirty, b);
    }
  }

  lemma ListedSizes(blocks: seq<Block>, dirty: map<BlockID, Bytes>, bs: nat)
    requires Lists(blocks, dirty, {})
    ensures AllOfSize(dirty, bs) <==> forall i :: 0 <= i < |blocks| ==> |blocks[i].buf| == bs
  {
    if forall i :: 0 <= i < |blocks| ==> |blocks[i].buf| == bs {
      forall b | b in dirty
        ensures |dirty[b]| == bs
      {
        assert Names(blocks, b);
        var i :| 0 <= i < |blocks| && blocks[i].id == b;
      }
    }
  }

  /** What a commit did: the blocks in the order they were written, and the
      checkpoint after them, which moved nothing if there was none. */
  datatype Outcome = Outcome(blocks: seq<Block>, gate: WalID, moved: seq<BlockID>, kept: seq<BlockID>)

  /** The frames of all dirty blocks are in the log, the transaction is closed,
      and a checkpoint has run if one was due. */
  ghost predicate CommittedAs(s: Store, dirty: map<BlockID, Bytes>, id: TxID, o: Outcome, s': Store, ok: bool,
                              crc: Checksum)
    requires Is32Bit(crc)
  {
    var s1 := Put(s, o.blocks, crc).(txs := s.txs - {id});
    && Lists(o.blocks, dirty, {}) && Indexed(s1)
    && if Due(s1) then
         && IsGate(s1, o.gate) && Splits(s1, o.gate, o.moved, o.kept)
         && s' == (if o.moved == [] then s1 else Checkpointed(s1, o.gate, o.moved, o.kept, crc))
         && (ok <==> o.moved == [] || HeaderReadable(Moved(s1, o.moved), crc))
       else o.moved == [] && s' == s1 && ok
  }

  lemma CommitDone(s: Store, dirty: map<BlockID, Bytes>, id: TxID, o: Outcome, s1: Store, s': Store, ok: bool,
                   crc: Checksum)
    requires Is32Bit(crc) && Indexed(s) && AllStorable(s, o.blocks) && Lists(o.blocks, dirty, {})
    requires s1 == Put(s, o.blocks, crc).(txs := s.txs - {id}) && Indexed(s1)
    requires if Due(s1) then
        && IsGate(s1, o.gate) && Splits(s1, o.gate, o.moved, o.kept)
        && s' == (if o.moved == [] then s1 else Checkpointed(s1, o.gate, o.moved, o.kept, crc))
        && (ok <==> o.moved == [] || HeaderReadable(Moved(s1, o.moved), crc))
      else o.moved == [] && s' == s1 && ok
    ensures CommittedAs(s, dirty, id, o, s', ok, crc)
    ensures Settled(s, crc) && s.txs.Keys <= {id} ==> Serial(s, o, s', crc)
  {
    hide Indexed, Put, Checkpointed, Splits, IsGate, HeaderReadable, Moved, Settled, Serial, Due, Lists;
    if Settled(s, crc) && s.txs.Keys <= {id} {
      CommitIsSerial(s, dirty, id, o, s', ok, crc);
    }
  }

  /** A settled engine that is what the crash histories say it is after the
      commit and its checkpoint, as if the transaction had never been open. */
  ghost predicate Serial(s: Store, o: Outcome, s': Store, crc: Checksum)
    requires Is32Bit(crc)
  {
    var s0, events := s.(txs := map[]), SerialEvents(o);
    Settled(s', crc) && History(s0, events, crc) && s' == Final(s0, events, crc)
  }

  ghost function SerialEvents(o: Outcome): seq<Event> {
    if o.moved == [] then [Event.Commit(o.blocks)] else [Event.Commit(o.blocks), Event.Checkpoint(o.moved)]
  }

  lemma CommitIsSerial(s: Store, dirty: map<BlockID, Bytes>, id: TxID, o: Outcome, s': Store, ok: bool, crc: Checksum)
    requires Is32Bit(crc) && Settled(s, crc) && AllStorable(s, o.blocks) && s.txs.Keys <= {id}
    requires CommittedAs(s, dirty, id, o, s', ok, crc)
    ensures Serial(s, o, s', crc)
  {
    hide Settled, Put, Checkpointed, Splits, IsGate, HeaderReadable, Moved, Lists, Due, Indexed;
    var s0 := s.(txs := map[]);
    assert s.txs - {id} == map[];
    SettledBeside(s, s0, crc);
    SettledIndexed(s0, crc);
    PutBeside(s, s0, o.blocks, crc);
    CommitSettled(s0, o.blocks, crc);
    var s1 := Put(s0, o.blocks, crc);
    SettledIndexed(s1, crc);
    if o.moved == [] {
      HistoryOfOne(s0, Event.Commit(o.blocks), crc);
    } else {
      FullWithoutReaders(s1, o.gate, o.moved, o.kept);
      CheckpointSettled(s1, o.moved, crc);
      HistoryOfTwo(s0, Event.Commit(o.blocks), Event.Checkpoint(o.moved), crc);
    }
  }

  lemma HistoryOfOne(s: Store, e: Event, crc: Checksum)
    requires Is32Bit(crc) && CanHappen(s, e, crc)
    ensures History(s, [e], crc) && Final(s, [e], crc) == After(s, e, crc)
  {
    hide CanHappen, After;
    assert [e][1..] == [];
  }

  /** With no transaction open a checkpoint moves every frame. */
  lemma FullWithoutReaders(s: Store, gate: WalID, moved: seq<BlockID>, kept: seq<BlockID>)
    requires Indexed(s) && s.txs == map[] && IsGate(s, gate) && Splits(s, gate, moved, kept)
    ensures gate == s.maxID && kept == [] && CopiesAll(s, moved)
  {
    forall b | b in s.index
      ensures s.index[b] < s.maxID
    {
      IndexedAt(s, b);
    }
    KeptIDs(s, gate, moved, kept);
    SomeListed(kept);
  }

  lemma StaysSettled(s: Store, s': Store, crc: Checksum)
    requires s' == s.(txs := s'.txs, nextTx := s'.nextTx)
    ensures Settled(s, crc) ==> Settled(s', crc)
  {
    hide Settled;
    if Settled(s, crc) {
      SettledBeside(s, s', crc);
    }
  }

  lemma SomeListed(ids: seq<BlockID>)
    ensures ids == [] || exists b :: b in ids
  {
    if ids != [] {
      var b := ids[0];
      assert b in ids;
    }
  }

  /** Later readers see the dirty blocks over the old contents; a reader that is
      still active falls back to main for a rewritten block it read from the log.
      A checkpoint behind the commit shows only where main grew over a block. */
  ghost predicate Published(s: Store, dirty: map<BlockID, Bytes>, id: TxID, moved: seq<BlockID>, s': Store) {
    && Indexed(s) && Indexed(s') && s'.txs == s.txs - {id}
    && (forall i :: 0 <= i < |moved| ==> moved[i] in s.index || moved[i] in dirty)
    && (forall b :: Norm(b, Read(s', b, s'.maxID)) == Norm(b, Regrown(s.main, s.bs, moved, b, SeenAfter(s, dirty, b))))
    && (forall t, b :: t in s'.txs ==>
          Norm(b, Read(s', b, s'.txs[t])) ==
              Norm(b, Regrown(s.main, s.bs, moved, b, SeenDuring(s, dirty, b, s'.txs[t]))))
  }

  /** The same without a checkpoint, on the very bytes. */
  ghost predicate Visible(s: Store, dirty: map<BlockID, Bytes>, id: TxID, s': Store) {
    && Indexed(s) && Indexed(s') && s'.txs == s.txs - {id} && s'.main == s.main && s'.bs == s.bs
    && (forall b :: b in s'.index <==> b in s.index || b in dirty)
    && (forall b :: Read(s', b, s'.maxID) == SeenAfter(s, dirty, b))
    && (forall t, b :: t in s'.txs ==> Read(s', b, s'.txs[t]) == SeenDuring(s, dirty, b, s'.txs[t]))
  }

  ghost function SeenAfter(s: Store, dirty: map<BlockID, Bytes>, b: BlockID): Option<Bytes>
    requires Indexed(s)
  {
    if b in dirty then Some(dirty[b]) else Read(s, b, s.maxID)
  }

  ghost function SeenDuring(s: Store, dirty: map<BlockID, Bytes>, b: BlockID, w: WalID): Option<Bytes>
    requires Indexed(s)
  {
    if b in dirty && b in s.index && s.index[b] < w then MainRead(s.main, s.bs, b) else Read(s, b, w)
  }

  lemma CommitPublished(s: Store, blocks: seq<Block>, dirty: map<BlockID, Bytes>, id: TxID, s': Store, crc: Checksum)
    requires Indexed(s) && AllStorable(s, blocks) && Is32Bit(crc)
    requires forall t :: t in s.txs ==> s.txs[t] <= s.maxID
    requires forall b :: b in dirty <==> Names(blocks, b)
    requires forall b :: Names(blocks, b) ==> b in dirty && LastBuf(blocks, b) == dirty[b]
    requires s' == Put(s, blocks, crc).(txs := s.txs - {id})
    ensures Visible(s, dirty, id, s')
  {
    hide Indexed, Names, LastBuf, Put, Read, AllStorable;
    var p := Put(s, blocks, crc);
    PutKept(s, blocks, crc);
    SameIndexed(p, s');
    forall b
      ensures Read(s', b, s'.maxID) == SeenAfter(s, dirty, b)
    {
      CommitSeenAfter(s, blocks, crc, b);
      SameReads(p, s', b, s'.maxID);
    }
    forall t, b | t in s'.txs
      ensures Read(s', b, s'.txs[t]) == SeenDuring(s, dirty, b, s'.txs[t])
    {
      CommitSeenByReader(s, blocks, crc, b, s'.txs[t]);
      SameReads(p, s', b, s'.txs[t]);
    }
  }

  lemma PutKept(s: Store, blocks: seq<Block>, crc: Checksum)
    requires Indexed(s) && AllStorable(s, blocks) && Is32Bit(crc)
    ensures var s' := Put(s, blocks, crc);
      && Indexed(s') && s'.main == s.main && s'.bs == s.bs && s'.txs == s.txs
      && (forall b :: b in s'.index <==> b in s.index || Names(blocks, b))
  {
    hide Indexed, AllStorable, WalRead, Names, LastBuf;
    PutFramesRead(s, blocks, |blocks|, crc);
    assert blocks[..|blocks|] == blocks;
    PutSameFiles(s, blocks, crc);
  }

  lemma SameReads(s: Store, s': Store, b: BlockID, w: WalID)
    requires Indexed(s) && Indexed(s') && s' == s.(txs := s'.txs, nextTx := s'.nextTx)
    ensures Read(s', b, w) == Read(s, b, w)
  {
  }

  lemma PublishedAtOnce(s: Store, dirty: map<BlockID, Bytes>, id: TxID, s': Store)
    requires Visible(s, dirty, id, s')
    ensures Published(s, dirty, id, [], s')
  {
    hide Indexed, Read, Norm, SeenAfter, SeenDuring;
    assert forall b :: !Passes([], b);
  }

  /** A checkpoint right after the commit changes none of it, but where main
      grew over a block that was absent. */
  lemma StillPublished(s: Store, dirty: map<BlockID, Bytes>, id: TxID, s1: Store, gate: WalID,
                       moved: seq<BlockID>, kept: seq<BlockID>, crc: Checksum)
    requires Is32Bit(crc) && Visible(s, dirty, id, s1)
    requires IsGate(s1, gate) && Splits(s1, gate, moved, kept)
    ensures Indexed(s1) && Published(s, dirty, id, moved, Checkpointed(s1, gate, moved, kept, crc))
  {
    hide Indexed, Splits, Read, Norm, MainRead, Regrown, SeenDuring, SeenAfter, Checkpointed;
    var s' := Checkpointed(s1, gate, moved, kept, crc);
    CheckpointFrame(s1, gate, moved, kept, crc);
    forall i | 0 <= i < |moved|
      ensures moved[i] in s.index || moved[i] in dirty
    {
      MovedListed(s1, gate, moved, kept, i, moved[i]);
    }
    forall b
      ensures Norm(b, Read(s', b, s'.maxID)) == Norm(b, Regrown(s.main, s.bs, moved, b, SeenAfter(s, dirty, b)))
    {
      CheckpointUnseen(s1, gate, moved, kept, crc, b, s1.maxID);
    }
    forall t, b | t in s'.txs
      ensures Norm(b, Read(s', b, s'.txs[t])) ==
        Norm(b, Regrown(s.main, s.bs, moved, b, SeenDuring(s, dirty, b, s'.txs[t])))
    {
      CheckpointUnseen(s1, gate, moved, kept, crc, b, s1.txs[t]);
    }
  }

  lemma MovedListed(s: Store, gate: WalID, moved: seq<BlockID>, kept: seq<BlockID>, i: nat, b: BlockID)
    requires Splits(s, gate, moved, kept) && i < |moved| && b == moved[i]
    ensures b in s.index
  {
  }

  lemma CheckpointFrame(s: Store, gate: WalID, moved: seq<BlockID>, kept: seq<BlockID>, crc: Checksum)
    requires Indexed(s) && Splits(s, gate, moved, kept) && Is32Bit(crc)
    ensures var s' := Checkpointed(s, gate, moved, kept, crc);
      Indexed(s') && s'.txs == s.txs && s'.maxID == s.maxID
  {
    hide KeptWal, KeptSlots, Moved, FrameAt;
    CheckpointIndexed(s, gate, moved, kept, crc);
  }

  /* ---- one transaction from start to end ---- */

  /** Alone on a settled engine: open, write, commit, with the checkpoint that
      may follow. Later readers see the writes over what was there, and the
      engine is again one that survives every crash of the crash histories. */
  method Transact(wal: WalStorage, writes: seq<Block>) returns (ok: bool, ghost o: Outcome)
    requires wal.Valid() && Settled(wal.State(), wal.crc) && wal.txUsingWalIDs == map[]
    requires forall i :: 0 <= i < |writes| ==> Storable(writes[i], wal.blockSize)
    modifies wal, wal.main, wal.wal
    ensures wal.Valid() && Settled(wal.State(), wal.crc) && wal.txUsingWalIDs == map[]
    ensures Serial(old(wal.State()).(nextTx := old(wal.nextTxID) + 1), o, wal.State(), wal.crc)
    ensures Indexed(old(wal.State()))
    ensures forall b ::
      Norm(b, Read(wal.State(), b, wal.maxWalID)) ==
      Norm(b, Filled(b, Over(old(wal.State()), writes, b), wal.blockSize, o.moved != []))
  {
    hide Indexed, AllOfSize, Published, Put, Settled, Serial, CommittedAs, Names, LastBuf, Norm, Filled, Read, Numbered;
    ghost var s0 := wal.State();
    var tx := wal.NewTxStorage();
    ghost var s1 := wal.State();
    var i := 0;
    NoWrites(writes, wal.blockSize);
    while i < |writes|
      invariant i <= |writes| && wal.Valid() && wal.State() == s1
      invariant Wrote(tx.dirtyBlocks, writes[..i], wal.blockSize)
    {
      MoreWritten(tx.dirtyBlocks, writes, i, wal.blockSize);
      tx.PutBlock(writes[i].id, writes[i].buf);
      i := i + 1;
    }
    assert writes[..i] == writes;
    ghost var dirty := tx.dirtyBlocks;
    WroteSizes(dirty, writes, wal.blockSize);
    ok, o := tx.Commit();
    SerialAlone(s0, s1, o, wal.State(), wal.crc);
    PublishedWrites(s0, s1, dirty, writes, tx.id, o.moved, wal.State(), wal.crc);
  }

  /** The dirty blocks are the writes, the last one of each block. */
  ghost predicate Wrote(dirty: map<BlockID, Bytes>, writes: seq<Block>, bs: nat) {
    && (forall b :: b in dirty <==> Names(writes, b))
    && (forall b :: Names(writes, b) ==> b in dirty && dirty[b] == LastBuf(writes, b))
    && (forall b :: b in dirty ==> 0 <= b < TWO_63 && |dirty[b]| == bs)
  }

  lemma NoWrites(writes: seq<Block>, bs: nat)
    ensures Wrote(map[], writes[..0], bs)
  {
  }

  lemma MoreWritten(dirty: map<BlockID, Bytes>, writes: seq<Block>, i: nat, bs: nat)
    requires i < |writes| && Wrote(dirty, writes[..i], bs) && Storable(writes[i], bs)
    ensures Wrote(dirty[writes[i].id := writes[i].buf], writes[..i + 1], bs)
  {
    hide LastBuf;
    var dirty' := dirty[writes[i].id := writes[i].buf];
    forall b
      ensures b in dirty' <==> Names(writes[..i + 1], b)
      ensures b in dirty' ==> dirty'[b] == LastBuf(writes[..i + 1], b) && 0 <= b < TWO_63 && |dirty'[b]| == bs
    {
      NamesStep(writes, i + 1, b);
    }
  }

  lemma WroteSizes(dirty: map<BlockID, Bytes>, writes: seq<Block>, bs: nat)
    requires Wrote(dirty, writes, bs)
    ensures AllOfSize(dirty, bs) && forall b :: b in dirty ==> 0 <= b < TWO_63
  {
  }

  lemma SerialAlone(s: Store, s1: Store, o: Outcome, s': Store, crc: Checksum)
    requires Is32Bit(crc) && s.txs == map[] && s1 == s.(txs := s1.txs, nextTx := s.nextTx + 1) && Serial(s1, o, s', crc)
    ensures Serial(s.(nextTx := s.nextTx + 1), o, s', crc) && Settled(s', crc)
  {
    hide Settled, History, Final;
    assert s1.(txs := map[]) == s.(nextTx := s.nextTx + 1).(txs := map[]);
  }

  lemma PublishedWrites(s: Store, s1: Store, dirty: map<BlockID, Bytes>, writes: seq<Block>, id: TxID,
                        moved: seq<BlockID>, s': Store, crc: Checksum)
    requires Settled(s, crc) && s1 == s.(txs := s1.txs, nextTx := s.nextTx + 1) && s1.txs.Keys <= {id}
    requires Wrote(dirty, writes, s.bs) && Published(s1, dirty, id, moved, s')
    ensures Indexed(s) && Indexed(s') && s'.txs == map[]
    ensures forall b :: Norm(b, Read(s', b, s'.maxID)) == Norm(b, Filled(b, Over(s, writes, b), s.bs, moved != []))
  {
    hide Names, LastBuf, Norm, Filled, Regrown, TornAt, MainRead, WalRead, Read, Indexed, Settled;
    assert s1.txs - {id} == map[];
    SettledIndexed(s, crc);
    forall b
      ensures Norm(b, Read(s', b, s'.maxID)) == Norm(b, Filled(b, Over(s, writes, b), s.bs, moved != []))
    {
      SameReads(s, s1, b, s.maxID);
      SettledAbsent(s, dirty, moved, b, crc);
      RegrownIsFilled(s.main, s.bs, moved, b, SeenAfter(s1, dirty, b));
    }
  }

  /** In a settled engine an absent block is not in the log and not torn. */
  lemma SettledAbsent(s: Store, dirty: map<BlockID, Bytes>, moved: seq<BlockID>, b: BlockID, crc: Checksum)
    requires Settled(s, crc) && Indexed(s) && forall c :: c in dirty ==> 0 <= c
    requires forall i :: 0 <= i < |moved| ==> moved[i] in s.index || moved[i] in dirty
    ensures METADATA_LENGTH <= s.bs && forall i :: 0 <= i < |moved| ==> 0 <= moved[i]
    ensures Read(s, b, s.maxID) == None && b !in dirty ==>
      b !in moved && MainRead(s.main, s.bs, b) == None && !TornAt(s.main, s.bs, b)
  {
    hide LogOk, IndexIsLog, TornAt, MainRead, FrameAt, WalRead;
    SettledIndexed(s, crc);
    forall c | c in s.index
      ensures 0 <= c && s.index[c] < s.maxID
    {
      IndexedAt(s, c);
    }
  }

  /* ---- support ---- */

  ghost predicate OffsetsMatch(offsets: map<WalID, int>, slots: map<WalID, nat>, fs: nat) {
    offsets.Keys == slots.Keys && forall w :: w in slots && w in offsets ==> offsets[w] == Off(slots[w], fs)
  }

  /** Go's map iteration: any element may come next. */
  method Pick<T>(s: set<T>) returns (x: T)
    requires s != {}
    ensures x in s
  {
    x :| x in s;
  }

  lemma FrameInside(s: Store, b: BlockID)
    requires Indexed(s) && b in s.index
    ensures s.index[b] in s.slots
    ensures Off(s.slots[s.index[b]], FrameSize(s.bs)) + FrameSize(s.bs) <= |s.wal|
    ensures SlotBytes(s, b) ==
      s.wal[Off(s.slots[s.index[b]], FrameSize(s.bs))..Off(s.slots[s.index[b]], FrameSize(s.bs)) + FrameSize(s.bs)]
  {
    IndexedAt(s, b);
  }

  /** A map that gives the listed blocks their indexed WAL IDs. */
  ghost predicate IndexOf(s: Store, ids: seq<BlockID>, index: map<BlockID, WalID>) {
    && (forall b :: b in index <==> b in ids)
    && (forall b :: b in index ==> b in s.index && index[b] == s.index[b])
  }

  lemma IndexOfMore(s: Store, ids: seq<BlockID>, i: nat, index: map<BlockID, WalID>)
    requires i < |ids| && ids[i] in s.index && IndexOf(s, ids[..i], index)
    ensures IndexOf(s, ids[..i + 1], index[ids[i] := s.index[ids[i]]])
  {
    assert ids[..i + 1] == ids[..i] + [ids[i]];
  }

  lemma KeptNone(s: Store, kept: seq<BlockID>)
    requires Indexed(s) && forall i :: 0 <= i < |kept| ==> kept[i] in s.index
    ensures KeptWal(s, kept, 0) == s.wal && KeptSlots(s, kept, 0) == map[] && Off(0, FrameSize(s.bs)) == 0
    ensures OffsetsMatch(map[], map[], FrameSize(s.bs))
  {
  }

  lemma KeptMore(s: Store, kept: seq<BlockID>, k: nat)
    requires Indexed(s) && k < |kept| && forall i :: 0 <= i < |kept| ==> kept[i] in s.index
    ensures KeptWal(s, kept, k + 1) == Written(KeptWal(s, kept, k), Off(k, FrameSize(s.bs)), SlotBytes(s, kept[k]))
    ensures KeptSlots(s, kept, k + 1) == KeptSlots(s, kept, k)[s.index[kept[k]] := k]
    ensures Off(k + 1, FrameSize(s.bs)) == Off(k, FrameSize(s.bs)) + FrameSize(s.bs)
  {
  }

  lemma MovedMore(s: Store, moved: seq<BlockID>, id: BlockID)
    requires Indexed(s) && id in s.index && forall i :: 0 <= i < |moved| ==> moved[i] in s.index
    ensures 0 <= id
    ensures forall i :: 0 <= i < |moved + [id]| ==> (moved + [id])[i] in s.index
    ensures Moved(s, moved + [id]) == Written(Moved(s, moved), Off(id, s.bs), WalRead(s, id))
  {
    IndexedAt(s, id);
    assert (moved + [id])[..|moved|] == moved;
  }

  lemma SplitsBy(s: Store, gate: WalID, safe: set<BlockID>, stay: set<BlockID>, moved: seq<BlockID>, kept: seq<BlockID>)
    requires safe == (set b | b in s.index && s.index[b] < gate)
    requires stay == (set b | b in s.index && s.index[b] >= gate)
    requires forall b :: b in safe <==> b in moved
    requires forall b :: b in stay <==> b in kept
    ensures Splits(s, gate, moved, kept)
  {
    AllIn(moved, safe);
    AllIn(kept, stay);
  }

  lemma AllIn(order: seq<BlockID>, s: set<BlockID>)
    requires forall b :: b in order ==> b in s
    ensures forall i :: 0 <= i < |order| ==> order[i] in s
  {
    forall i | 0 <= i < |order|
      ensures order[i] in s
    {
      var b := order[i];
      assert b in order;
      assert b in s;
    }
  }

  lemma MovedSome(safe: set<BlockID>, moved: seq<BlockID>)
    requires safe != {} && forall b :: b in safe <==> b in moved
    ensures moved != []
  {
    var b := AnyOf(safe);
    assert b in safe && b in moved;
  }

  lemma KeptLength(s: Store, kept: seq<BlockID>, k: nat)
    requires Indexed(s) && k <= |kept| && forall i :: 0 <= i < |kept| ==> kept[i] in s.index
    ensures Off(k, FrameSize(s.bs)) <= |KeptWal(s, kept, k)|
  {
    KeptFrames(s, kept, k);
  }

  lemma KeptIndexOf(s: Store, gate: WalID, moved: seq<BlockID>, kept: seq<BlockID>, index: map<BlockID, WalID>)
    requires Splits(s, gate, moved, kept) && IndexOf(s, kept, index)
    ensures index == KeptIndex(s, gate)
  {
    forall b
      ensures b in index <==> b in s.index && gate <= s.index[b]
      ensures b in index ==> index[b] == s.index[b]
    {
    }
    assert index.Keys == KeptIndex(s, gate).Keys;
  }

  lemma CheckpointDone(s: Store, gate: WalID, moved: seq<BlockID>, kept: seq<BlockID>, crc: Checksum, s': Store)
    requires Indexed(s) && Splits(s, gate, moved, kept) && Is32Bit(crc)
    requires s' ==
      Store(s.bs, Bumped(Moved(s, moved), crc), Truncated(KeptWal(s, kept, |kept|), Off(|kept|, FrameSize(s.bs))),
                         s'.index, KeptSlots(s, kept, |kept|), s.txs, s.maxID, s.nextTx, |kept|, s.nextBlock,
                         if HeaderReadable(Moved(s, moved), crc) then 0 else s.committed)
    requires IndexOf(s, kept, s'.index)
    ensures s' == Checkpointed(s, gate, moved, kept, crc) && Indexed(s')
    ensures Numbered(s) ==> Numbered(s')
  {
    hide Indexed, Moved, KeptWal, KeptSlots, Bumped, HeaderReadable, Off, Truncated, BelowNext;
    if Numbered(s) {
      CheckpointBelow(s, gate, moved, kept, crc);
    }
    KeptIndexOf(s, gate, moved, kept, s'.index);
    CheckpointIndexed(s, gate, moved, kept, crc);
  }

  lemma PutNumbered(s: Store, blocks: seq<Block>, crc: Checksum)
    requires Numbered(s) && Is32Bit(crc)
    ensures Numbered(Put(s, blocks, crc))
  {
    PutBelow(s, blocks, crc);
  }

  lemma PutNone(s: Store, blocks: seq<Block>, crc: Checksum)
    requires Is32Bit(crc)
    ensures PutFrames(s, blocks, 0, crc) == s
  {
  }

  lemma PutDone(s: Store, blocks: seq<Block>, s': Store, crc: Checksum)
    requires Is32Bit(crc) && Indexed(s) && AllStorable(s, blocks) && blocks != []
    requires s' == PutFrames(s, blocks, |blocks|, crc).(committed := PutFrames(s, blocks, |blocks|, crc).committed + 1)
    ensures Indexed(s') && s' == Put(s, blocks, crc)
  {
    PutFramesRead(s, blocks, |blocks|, crc);
    SameIndexed(PutFrames(s, blocks, |blocks|, crc), s');
  }

  lemma PutOneMore(s: Store, blocks: seq<Block>, k: nat, crc: Checksum)
    requires Is32Bit(crc) && k < |blocks|
    ensures PutFrames(s, blocks, k + 1, crc) ==
      PutFrame(PutFrames(s, blocks, k, crc), blocks[k], k == |blocks| - 1, crc)
  {
  }

  lemma OffsetsGrow(offsets: map<WalID, int>, slots: map<WalID, nat>, w: WalID, j: nat, fs: nat)
    requires OffsetsMatch(offsets, slots, fs)
    ensures OffsetsMatch(offsets[w := Off(j, fs)], slots[w := j], fs)
  {
  }

  ghost predicate SlotOffsets(offsets: map<WalID, int>, n: nat, fs: nat) {
    && (forall w :: w in offsets <==> 0 <= w < n)
    && (forall w :: w in offsets && 0 <= w < n ==> offsets[w] == Off(w, fs))
  }

  /** Recovery has read j intact frames, the first c of them committed. */
  ghost predicate Scanned(wal: Bytes, bs: nat, crc: Checksum, j: nat, c: nat, offset: int, maxID: WalID,
                          pendingIndex: map<BlockID, WalID>, pendingOffsets: map<WalID, int>,
                          index: map<BlockID, WalID>, offsets: map<WalID, int>, commitEnd: int) {
    && offset == Off(j, FrameSize(bs)) && maxID == j
    && (forall i :: 0 <= i < j ==> Full(wal, bs, i) && Intact(FrameAt(wal, bs, i), crc))
    && pendingIndex == LogIndex(wal, bs, j)
    && SlotOffsets(pendingOffsets, j, FrameSize(bs))
    && c == CommittedUpTo(wal, bs, j) && commitEnd == Off(c, FrameSize(bs))
    && index == LogIndex(wal, bs, c)
    && SlotOffsets(offsets, c, FrameSize(bs))
  }

  lemma ScanStarts(wal: Bytes, bs: nat, crc: Checksum)
    ensures Scanned(wal, bs, crc, 0, 0, 0, 0, map[], map[], map[], map[], 0)
  {
  }

  lemma ScanAt(wal: Bytes, bs: nat, crc: Checksum, j: nat, c: nat, offset: int, maxID: WalID,
               pendingIndex: map<BlockID, WalID>, pendingOffsets: map<WalID, int>,
               index: map<BlockID, WalID>, offsets: map<WalID, int>, commitEnd: int)
    requires Scanned(wal, bs, crc, j, c, offset, maxID, pendingIndex, pendingOffsets, index, offsets, commitEnd)
    ensures offset == Off(j, FrameSize(bs)) && 0 <= offset
  {
  }

  lemma ScanSteps(wal: Bytes, bs: nat, crc: Checksum, j: nat, c: nat, offset: int, maxID: WalID,
                  pendingIndex: map<BlockID, WalID>, pendingOffsets: map<WalID, int>,
                  index: map<BlockID, WalID>, offsets: map<WalID, int>, commitEnd: int)
    requires Scanned(wal, bs, crc, j, c, offset, maxID, pendingIndex, pendingOffsets, index, offsets, commitEnd)
    requires Full(wal, bs, j) && Intact(FrameAt(wal, bs, j), crc)
    ensures var f := FrameAt(wal, bs, j);
            var pi, po, off' := pendingIndex[f.id := maxID], pendingOffsets[maxID := offset],
                offset + FRAME_HEADER + bs;
      if f.marker != 0 then Scanned(wal, bs, crc, j + 1, j + 1, off', maxID + 1, pi, po, index + pi, offsets + po, off')
      else Scanned(wal, bs, crc, j + 1, c, off', maxID + 1, pi, po, index, offsets, commitEnd)
  {
    hide FrameAt, Full, SlotOffsets, LogIndex, CommittedUpTo;
    LogIndexGrows(wal, bs, j + 1);
    LogIndexCovers(wal, bs, c, j + 1);
    SlotOffsetsGrow(pendingOffsets, j, FrameSize(bs), offsets, c);
  }

  lemma SlotOffsetsGrow(pending: map<WalID, int>, j: nat, fs: nat, offsets: map<WalID, int>, c: nat)
    requires SlotOffsets(pending, j, fs) && SlotOffsets(offsets, c, fs) && c <= j
    ensures SlotOffsets(pending[j := Off(j, fs)], j + 1, fs)
    ensures SlotOffsets(offsets + pending[j := Off(j, fs)], j + 1, fs)
  {
  }

  lemma ScanEnds(main: Bytes, wal: Bytes, bs: nat, nextBlock: BlockID, crc: Checksum, j: nat, c: nat, offset: int,
                 maxID: WalID,
                 pendingIndex: map<BlockID, WalID>, pendingOffsets: map<WalID, int>,
                 index: map<BlockID, WalID>, offsets: map<WalID, int>, commitEnd: int)
    requires METADATA_LENGTH <= bs
    requires Scanned(wal, bs, crc, j, c, offset, maxID, pendingIndex, pendingOffsets, index, offsets, commitEnd)
    requires !(Full(wal, bs, j) && Intact(FrameAt(wal, bs, j), crc))
    requires NamesBlocks(wal, bs, crc)
    ensures var r := Recovered(bs, main, wal, nextBlock, crc);
      && Indexed(r) && r == Store(bs, main, wal, index, OwnSlots(c), map[], maxID, 0, c, nextBlock, 0)
      && commitEnd == Off(c, FrameSize(bs)) && OffsetsMatch(offsets, OwnSlots(c), FrameSize(bs))
  {
    hide FrameAt, Full;
    RecoveredIndexed(bs, main, wal, nextBlock, crc, j);
  }

  /** The committed frames of the log name real blocks. */
  ghost predicate NamesBlocks(wal: Bytes, bs: nat, crc: Checksum) {
    forall j :: 0 <= j < CommittedUpTo(wal, bs, ValidFrom(wal, bs, crc, 0)) ==> 0 <= FrameAt(wal, bs, j).id
  }

  /** A sound log, over a main whose torn block the log shadows. */
  ghost predicate SoundFiles(bs: nat, main: Bytes, wal: Bytes, crc: Checksum) {
    exists n: nat :: LogOk(wal, bs, n, crc) && forall c :: TornAt(main, bs, c) ==> c in LogIndex(wal, bs, n)
  }

  lemma SoundOpens(bs: nat, main: Bytes, wal: Bytes, nextBlock: BlockID, crc: Checksum)
    requires METADATA_LENGTH <= bs && SoundFiles(bs, main, wal, crc)
    ensures NamesBlocks(wal, bs, crc) && Settled(Recovered(bs, main, wal, nextBlock, crc), crc)
  {
    hide FrameAt, TornAt, Recovered, Settled;
    var n: nat :| LogOk(wal, bs, n, crc) && forall c :: TornAt(main, bs, c) ==> c in LogIndex(wal, bs, n);
    RecoveryStops(wal, bs, n, crc);
    OpenedSettled(bs, main, wal, n, nextBlock, crc);
  }

  /** The files of a settled engine are sound, so it can be opened again. */
  lemma SettledFiles(s: Store, crc: Checksum)
    requires Settled(s, crc)
    ensures SoundFiles(s.bs, s.main, s.wal, crc) && NamesBlocks(s.wal, s.bs, crc)
  {
    hide FrameAt, TornAt;
    assert LogOk(s.wal, s.bs, s.end, crc);
    RecoveryStops(s.wal, s.bs, s.end, crc);
  }

  lemma RecoveredNext(bs: nat, main: Bytes, wal: Bytes, next: BlockID, next': BlockID, crc: Checksum)
    ensures var r := Recovered(bs, main, wal, next, crc);
      && Recovered(bs, main, wal, next', crc) == r.(nextBlock := next')
      && r.txs == map[] && r.nextTx == 0 && r.committed == 0
  {
  }

  lemma FrameRead(wal: Bytes, bs: nat, j: nat, header: Bytes, buf: Bytes)
    requires Off(j, FrameSize(bs)) + FrameSize(bs) <= |wal|
    requires header == wal[Off(j, FrameSize(bs))..Off(j, FrameSize(bs)) + FRAME_HEADER]
    requires buf == wal[Off(j, FrameSize(bs)) + FRAME_HEADER..Off(j, FrameSize(bs)) + FRAME_HEADER + bs]
    ensures Full(wal, bs, j)
    ensures FrameAt(wal, bs, j) ==
      Frame(ToInt64(BEValue(header[0..8])), BEValue(header[8..16]), BEValue(header[16..24]) % TWO_32, buf)
  {
    hide BEValue, Off;
    var o := Off(j, FrameSize(bs));
    SubSlice(wal, o, o + FrameSize(bs), o + FRAME_HEADER, 0, 8);
    SubSlice(wal, o, o + FrameSize(bs), o + FRAME_HEADER, 8, 16);
    SubSlice(wal, o, o + FrameSize(bs), o + FRAME_HEADER, 16, 24);
    assert wal[o..o + FrameSize(bs)][24..] == buf;
  }

  lemma SubSlice(s: Bytes, lo: nat, hi: nat, mid: nat, a: nat, b: nat)
    requires lo + b <= mid <= hi <= |s| && a <= b
    ensures s[lo..hi][a..b] == s[lo..mid][a..b]
  {
    forall i | 0 <= i < b - a
      ensures s[lo..hi][a..b][i] == s[lo..mid][a..b][i]
    {
      assert s[lo..hi][a + i] == s[lo + a + i] == s[lo..mid][a + i];
    }
  }

  lemma FrameWrites(wal: Bytes, bs: nat, j: nat, b: Block, last: bool, crc: Checksum)
    ensures var o := Off(j, FrameSize(bs)); var header := Written(wal, o,
                                                                  HeaderBytes(b.id, MarkerOf(last), crc(b.buf)));
      && WithStage(wal, bs, j, b, last, crc, HeaderOnly) == header
      && WithFrame(wal, bs, j, b, last, crc) == Written(header, o + FRAME_HEADER, b.buf)
  {
    hide HeaderBytes, Written, Off;
  }

  lemma HeaderParts(id: BlockID, marker: nat, sum: nat)
    ensures HeaderBytes(id, marker, sum) == BE(id % TWO_64, 8) + BE(marker, 8) + BE(sum, 8)
  {
  }

  lemma LogIndexGrows(wal: Bytes, bs: nat, n: nat)
    requires n > 0 && forall i :: 0 <= i < n ==> Full(wal, bs, i)
    ensures LogIndex(wal, bs, n) == LogIndex(wal, bs, n - 1)[FrameAt(wal, bs, n - 1).id := n - 1]
    ensures CommittedUpTo(wal, bs, n) == if FrameAt(wal, bs, n - 1).marker != 0 then n
      else CommittedUpTo(wal, bs, n - 1)
  {
  }

  lemma {:induction false} LogIndexCovers(wal: Bytes, bs: nat, c: nat, n: nat)
    requires c <= n && forall i :: 0 <= i < n ==> Full(wal, bs, i)
    ensures LogIndex(wal, bs, c) + LogIndex(wal, bs, n) == LogIndex(wal, bs, n)
    ensures LogIndex(wal, bs, c).Keys <= LogIndex(wal, bs, n).Keys
  {
    if c < n {
      LogIndexCovers(wal, bs, c, n - 1);
    }
  }

  lemma RecoveredIndexed(bs: nat, main: Bytes, wal: Bytes, nextBlock: BlockID, crc: Checksum, m: nat)
    requires METADATA_LENGTH <= bs
    requires forall i :: 0 <= i < m ==> Full(wal, bs, i) && Intact(FrameAt(wal, bs, i), crc)
    requires !(Full(wal, bs, m) && Intact(FrameAt(wal, bs, m), crc))
    requires NamesBlocks(wal, bs, crc)
    ensures ValidFrom(wal, bs, crc, 0) == m
    ensures Indexed(Recovered(bs, main, wal, nextBlock, crc))
  {
    hide FrameOf;
    assert ValidFrom(wal, bs, crc, 0) == m;
    var r := Recovered(bs, main, wal, nextBlock, crc);
    forall b | b in r.index
      ensures 0 <= b < TWO_63 && Holds(r, r.index[b], b)
    {
      LogIndexHolds(wal, bs, r.end, b);
      IDInRange(wal, bs, r.index[b]);
    }
    if r.end > 0 {
      assert Full(wal, bs, r.end - 1);
    }
  }

  lemma IDInRange(wal: Bytes, bs: nat, j: nat)
    requires Full(wal, bs, j)
    ensures FrameAt(wal, bs, j).id < TWO_63
  {
    hide BEValue;
  }

  lemma MainBelow(main: Bytes, bs: nat, n: nat)
    requires 0 < bs && n == |main| / bs
    ensures forall b :: MainRead(main, bs, b).Some? ==> b < n
  {
    forall b: nat | MainRead(main, bs, b).Some?
      ensures b < n
    {
      OffTimes(b, bs);
      QuotientBound(b + 1, bs, |main|);
    }
  }

  lemma QuotientBound(k: nat, d: nat, x: nat)
    requires 0 < d && k * d <= x
    ensures k <= x / d
  {
    var q := x / d;
    assert x < q * d + d == (q + 1) * d;
    if q < k {
      TimesMono(q + 1, k, d);
    }
  }

  lemma Quotient(k: nat, d: nat)
    requires 0 < d
    ensures k * d / d == k
  {
    var q := k * d / d;
    QuotientBound(k, d, k * d);
    assert q * d <= k * d;
    NotMore(k, q, d);
  }

  lemma NotMore(k: nat, q: nat, d: nat)
    requires 0 < d && q * d <= k * d
    ensures q <= k
  {
    if k < q {
      TimesMono(k + 1, q, d);
    }
  }

  lemma PayloadBytes(wal: Bytes, bs: nat, j: nat)
    requires Full(wal, bs, j)
    ensures wal[Off(j, FrameSize(bs)) + FRAME_HEADER..Off(j, FrameSize(bs)) + FRAME_HEADER + bs] ==
      FrameAt(wal, bs, j).payload
  {
    hide FrameOf;
    var o := Off(j, FrameSize(bs));
    FramePayload(wal[o..o + FrameSize(bs)]);
  }

  lemma SameIndexed(s: Store, s': Store)
    requires Indexed(s)
    requires s' == s.(txs := s'.txs, nextTx := s'.nextTx, nextBlock := s'.nextBlock, committed := s'.committed)
    ensures Indexed(s')
  {
    forall b | b in s'.index
      ensures 0 <= b < TWO_63 && Holds(s', s'.index[b], b)
    {
      IndexedAt(s, b);
    }
  }

  /* ---- when a checkpoint is due ---- */

  /** After a checkpoint the next one is due with the 101st commit or the 101st
      frame, whichever comes first. */
  lemma DueAfter(s: Store, lists: seq<seq<Block>>, crc: Checksum)
    requires Is32Bit(crc) && s.committed == 0 && s.end == 0
    ensures Due(Commits(s, lists, crc)) <==> 101 <= Nonempty(lists) || 101 <= FramesOf(lists)
  {
    hide Put, Commits;
    CommitsCount(s, lists, crc);
  }
}

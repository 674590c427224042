/** The storage engine's state, what a reader with a given watermark sees, and
    how each operation changes both. */
module WalState {
  import opened Options
  import opened Bytes
  import opened Files
  import opened Metadata
  import opened WalLog

  type WalID = int
  type TxID = int

  /** slots maps a WAL ID to the slot of its frame; end counts the slots in use. */
  datatype Store = Store(
    bs: nat,
    main: Bytes,
    wal: Bytes,
    index: map<BlockID, WalID>,
    slots: map<WalID, nat>,
    txs: map<TxID, WalID>,
    maxID: WalID,
    nextTx: TxID,
    end: nat,
    nextBlock: BlockID,
    committed: nat)

  /* ---- reading ---- */

  ghost predicate Holds(s: Store, id: WalID, b: BlockID) {
    && id < s.maxID && id in s.slots && s.slots[id] < s.end
    && Full(s.wal, s.bs, s.slots[id])
    && FrameAt(s.wal, s.bs, s.slots[id]).id == b
  }

  /** Every indexed block names a frame of its own inside the log. */
  ghost predicate Indexed(s: Store) {
    && Off(s.end, FrameSize(s.bs)) <= |s.wal|
    && METADATA_LENGTH <= s.bs
    && (forall b :: b in s.index ==> 0 <= b < TWO_63 && Holds(s, s.index[b], b))
  }

  function MainRead(main: Bytes, bs: nat, b: BlockID): Option<Bytes> {
    if 0 <= b && Off(b, bs) + bs <= |main| then Some(main[Off(b, bs)..Off(b, bs) + bs]) else None
  }

  ghost function WalRead(s: Store, b: BlockID): Bytes
    requires Indexed(s) && b in s.index
  {
    FrameAt(s.wal, s.bs, s.slots[s.index[b]]).payload
  }

  /** What a reader with watermark w sees of block b; None is the empty block. */
  ghost function Read(s: Store, b: BlockID, w: WalID): Option<Bytes>
    requires Indexed(s)
  {
    if b in s.index && s.index[b] < w then Some(WalRead(s, b)) else MainRead(s.main, s.bs, b)
  }

  /** Every block there is, in the log or in main, is below the next free one. */
  ghost predicate BelowNext(s: Store) {
    && 1 <= s.nextBlock
    && (forall b :: b in s.index ==> b < s.nextBlock)
    && (forall b :: MainRead(s.main, s.bs, b).Some? ==> b < s.nextBlock)
  }

  /** So the next free one has no version anywhere. */
  lemma NextIsFree(s: Store, b: BlockID, w: WalID)
    requires Indexed(s) && BelowNext(s) && s.nextBlock <= b
    ensures b !in s.index && Read(s, b, w) == None
  {
  }

  ghost predicate WatermarksKnown(s: Store) {
    forall t :: t in s.txs ==> t < s.nextTx && s.txs[t] <= s.maxID
  }

  /* ---- committing ---- */

  function Later(next: BlockID, b: BlockID): BlockID {
    if b >= next then b + 1 else next
  }

  function PutFrame(s: Store, b: Block, last: bool, crc: Checksum): Store
  {
    s.(wal := WithFrame(s.wal, s.bs, s.end, b, last, crc),
       index := s.index[b.id := s.maxID],
       slots := s.slots[s.maxID := s.end],
       maxID := s.maxID + 1,
       end := s.end + 1,
       nextBlock := Later(s.nextBlock, b.id))
  }

  /** The first k blocks of a commit are in the log; the last one carries the marker. */
  ghost function PutFrames(s: Store, blocks: seq<Block>, k: nat, crc: Checksum): Store
    requires k <= |blocks| && Is32Bit(crc)
  {
    if k == 0 then s else PutFrame(PutFrames(s, blocks, k - 1, crc), blocks[k - 1], k == |blocks|, crc)
  }

  ghost predicate AllStorable(s: Store, blocks: seq<Block>) {
    forall i :: 0 <= i < |blocks| ==> Storable(blocks[i], s.bs)
  }

  ghost function Put(s: Store, blocks: seq<Block>, crc: Checksum): Store
    requires Is32Bit(crc)
  {
    if blocks == [] then s else PutFrames(s, blocks, |blocks|, crc).(committed := s.committed + 1)
  }

  ghost predicate Names(blocks: seq<Block>, b: BlockID) {
    exists i :: 0 <= i < |blocks| && blocks[i].id == b
  }

  /** The last buffer a commit gives block b. */
  ghost function LastBuf(blocks: seq<Block>, b: BlockID): Bytes
    requires Names(blocks, b)
  {
    if blocks[|blocks| - 1].id == b then blocks[|blocks| - 1].buf
    else
      assert Names(blocks[..|blocks| - 1], b) by {
        var i :| 0 <= i < |blocks| && blocks[i].id == b;
        assert blocks[..|blocks| - 1][i].id == b;
      }
      LastBuf(blocks[..|blocks| - 1], b)
  }

  lemma PutFrameRead(s: Store, b: Block, last: bool, crc: Checksum)
    requires Indexed(s) && Storable(b, s.bs) && Is32Bit(crc)
    ensures var s' := PutFrame(s, b, last, crc);
      && Indexed(s')
      && s'.main == s.main && s'.txs == s.txs && s'.bs == s.bs
      && WalRead(s', b.id) == b.buf
      && (forall c :: c in s.index && c != b.id ==> WalRead(s', c) == WalRead(s, c))
  {
    hide FrameAt, WithFrame;
    FrameWritten(s.wal, s.bs, s.end, b, last, crc);
    var s' := PutFrame(s, b, last, crc);
    forall c | c in s'.index
      ensures 0 <= c < TWO_63 && Holds(s', s'.index[c], c)
      ensures c in s.index && c != b.id ==>
        FrameAt(s'.wal, s.bs, s'.slots[s'.index[c]]) == FrameAt(s.wal, s.bs, s.slots[s.index[c]])
    {
      if c != b.id {
        assert Holds(s, s.index[c], c);
      }
    }
  }

  /** After k frames of a commit: the named blocks have new WAL IDs, all at or
      above the old maximum, and read as the commit wrote them. */
  lemma {:induction false} PutFramesRead(s: Store, blocks: seq<Block>, k: nat, crc: Checksum)
    requires Indexed(s) && AllStorable(s, blocks) && Is32Bit(crc) && k <= |blocks|
    ensures var s' := PutFrames(s, blocks, k, crc);
      && Indexed(s')
      && s'.main == s.main && s'.txs == s.txs && s'.bs == s.bs && s'.maxID == s.maxID + k && s'.end == s.end + k
      && s'.nextTx == s.nextTx && s'.committed == s.committed
      && (forall b :: b in s'.index <==> b in s.index || Names(blocks[..k], b))
      && (forall b :: b in s'.index && !Names(blocks[..k], b) ==>
          s'.index[b] == s.index[b] && WalRead(s', b) == WalRead(s, b))
      && (forall b :: b in s'.index && Names(blocks[..k], b) ==>
          s.maxID <= s'.index[b] && WalRead(s', b) == LastBuf(blocks[..k], b))
  {
    if k > 0 {
      PutFramesRead(s, blocks, k - 1, crc);
      var s1 := PutFrames(s, blocks, k - 1, crc);
      PutFrameRead(s1, blocks[k - 1], k == |blocks|, crc);
      PutFramesStep(s, blocks, k, crc);
    }
  }

  lemma NamesStep(blocks: seq<Block>, k: nat, b: BlockID)
    requires 0 < k <= |blocks|
    ensures Names(blocks[..k], b) <==> blocks[k - 1].id == b || Names(blocks[..k - 1], b)
    ensures blocks[k - 1].id == b ==> LastBuf(blocks[..k], b) == blocks[k - 1].buf
    ensures blocks[k - 1].id != b && Names(blocks[..k - 1], b) ==>
      LastBuf(blocks[..k], b) == LastBuf(blocks[..k - 1], b)
  {
    assert blocks[..k][..k - 1] == blocks[..k - 1];
    forall i | 0 <= i < k
      ensures blocks[..k][i].id == b ==> blocks[k - 1].id == b || Names(blocks[..k - 1], b)
    {
      if i < k - 1 {
        assert blocks[..k - 1][i] == blocks[..k][i];
      }
    }
    if blocks[k - 1].id == b {
      assert blocks[..k][k - 1].id == b;
    } else if Names(blocks[..k - 1], b) {
      var i :| 0 <= i < k - 1 && blocks[..k - 1][i].id == b;
      assert blocks[..k][i].id == b;
    }
  }

  lemma PutFramesStep(s: Store, blocks: seq<Block>, k: nat, crc: Checksum)
    requires Indexed(s) && AllStorable(s, blocks) && Is32Bit(crc) && 0 < k <= |blocks|
    requires var s1 := PutFrames(s, blocks, k - 1, crc);
      && Indexed(s1) && Indexed(PutFrames(s, blocks, k, crc))
      && s1.maxID == s.maxID + k - 1
      && (forall b :: b in s1.index <==> b in s.index || Names(blocks[..k - 1], b))
      && (forall b :: b in s1.index && !Names(blocks[..k - 1], b) ==>
          s1.index[b] == s.index[b] && WalRead(s1, b) == WalRead(s, b))
      && (forall b :: b in s1.index && Names(blocks[..k - 1], b) ==>
          s.maxID <= s1.index[b] && WalRead(s1, b) == LastBuf(blocks[..k - 1], b))
      && WalRead(PutFrames(s, blocks, k, crc), blocks[k - 1].id) == blocks[k - 1].buf
      && (forall c :: c in s1.index && c != blocks[k - 1].id ==>
          WalRead(PutFrames(s, blocks, k, crc), c) == WalRead(s1, c))
    ensures var s' := PutFrames(s, blocks, k, crc);
      && (forall b :: b in s'.index <==> b in s.index || Names(blocks[..k], b))
      && (forall b :: b in s'.index && !Names(blocks[..k], b) ==>
          s'.index[b] == s.index[b] && WalRead(s', b) == WalRead(s, b))
      && (forall b :: b in s'.index && Names(blocks[..k], b) ==>
          s.maxID <= s'.index[b] && WalRead(s', b) == LastBuf(blocks[..k], b))
  {
    hide Indexed, WalRead, Names, LastBuf;
    forall b
      ensures Names(blocks[..k], b) <==> blocks[k - 1].id == b || Names(blocks[..k - 1], b)
      ensures blocks[k - 1].id == b ==> LastBuf(blocks[..k], b) == blocks[k - 1].buf
      ensures blocks[k - 1].id != b && Names(blocks[..k - 1], b) ==>
        LastBuf(blocks[..k], b) == LastBuf(blocks[..k - 1], b)
    {
      NamesStep(blocks, k, b);
    }
  }

  /** A commit changes what another reader sees of a block exactly when it
      rewrites a block whose WAL version was below the reader's watermark: the
      reader then falls back to the version in main. */
  lemma CommitSeenByReader(s: Store, blocks: seq<Block>, crc: Checksum, b: BlockID, w: WalID)
    requires Indexed(s) && AllStorable(s, blocks) && Is32Bit(crc) && w <= s.maxID
    ensures Indexed(Put(s, blocks, crc))
    ensures Read(Put(s, blocks, crc), b, w) ==
      if Names(blocks, b) && b in s.index && s.index[b] < w then MainRead(s.main, s.bs, b) else Read(s, b, w)
  {
    PutFramesRead(s, blocks, |blocks|, crc);
    assert blocks[..|blocks|] == blocks;
    PutSameFiles(s, blocks, crc);
  }

  /** A reader opened after a commit sees exactly the commit over what was there. */
  lemma CommitSeenAfter(s: Store, blocks: seq<Block>, crc: Checksum, b: BlockID)
    requires Indexed(s) && AllStorable(s, blocks) && Is32Bit(crc)
    ensures Indexed(Put(s, blocks, crc))
    ensures Read(Put(s, blocks, crc), b, Put(s, blocks, crc).maxID) ==
      if Names(blocks, b) then Some(LastBuf(blocks, b)) else Read(s, b, s.maxID)
  {
    PutFramesRead(s, blocks, |blocks|, crc);
    assert blocks[..|blocks|] == blocks;
    PutSameFiles(s, blocks, crc);
    var s' := Put(s, blocks, crc);
    if b in s'.index {
      assert Holds(s', s'.index[b], b);
    }
    if b in s.index {
      assert Holds(s, s.index[b], b);
    }
  }

  lemma PutSameFiles(s: Store, blocks: seq<Block>, crc: Checksum)
    requires Is32Bit(crc) && Indexed(PutFrames(s, blocks, |blocks|, crc))
    ensures var p := PutFrames(s, blocks, |blocks|, crc); var s' := Put(s, blocks, crc);
      && Indexed(s') && (blocks != [] ==> s' == p.(committed := s'.committed))
      && (forall b :: b in s'.index ==> b in p.index && s'.index[b] == p.index[b] && WalRead(s', b) == WalRead(p, b))
      && s'.index.Keys == p.index.Keys
  {
    var p := PutFrames(s, blocks, |blocks|, crc);
    var s' := Put(s, blocks, crc);
    forall b | b in s'.index
      ensures 0 <= b < TWO_63 && Holds(s', s'.index[b], b)
    {
      assert Holds(p, p.index[b], b);
    }
  }

  lemma {:induction false} PutFramesBelow(s: Store, blocks: seq<Block>, k: nat, crc: Checksum)
    requires BelowNext(s) && k <= |blocks| && Is32Bit(crc)
    ensures var s' := PutFrames(s, blocks, k, crc);
      BelowNext(s') && s.nextBlock <= s'.nextBlock && s'.main == s.main && s'.bs == s.bs
    ensures var s' := PutFrames(s, blocks, k, crc);
      s'.txs == s.txs && s'.nextTx == s.nextTx && s.maxID <= s'.maxID
  {
    hide WithFrame, MainRead;
    if k > 0 {
      PutFramesBelow(s, blocks, k - 1, crc);
    }
  }

  lemma PutBelow(s: Store, blocks: seq<Block>, crc: Checksum)
    requires BelowNext(s) && WatermarksKnown(s) && Is32Bit(crc)
    ensures BelowNext(Put(s, blocks, crc)) && WatermarksKnown(Put(s, blocks, crc))
  {
    hide MainRead;
    PutFramesBelow(s, blocks, |blocks|, crc);
  }

  /** A commit does not depend on who else is open. */
  lemma {:induction false} PutFramesBeside(s: Store, s': Store, blocks: seq<Block>, k: nat, crc: Checksum)
    requires k <= |blocks| && Is32Bit(crc) && s' == s.(txs := s'.txs)
    ensures PutFrames(s', blocks, k, crc) == PutFrames(s, blocks, k, crc).(txs := s'.txs)
  {
    hide WithFrame;
    if k > 0 {
      PutFramesBeside(s, s', blocks, k - 1, crc);
    }
  }

  lemma PutBeside(s: Store, s': Store, blocks: seq<Block>, crc: Checksum)
    requires Is32Bit(crc) && s' == s.(txs := s'.txs)
    ensures Put(s', blocks, crc) == Put(s, blocks, crc).(txs := s'.txs)
  {
    PutFramesBeside(s, s', blocks, |blocks|, crc);
  }

  /** Block b of main is the b-th piece of the block size, if main has all of it. */
  lemma BlockPlace(main: Bytes, bs: nat, b: BlockID)
    requires 0 < bs
    ensures MainRead(main, bs, b) ==
      if 0 <= b && b * bs + bs <= |main| then Some(main[b * bs..b * bs + bs]) else None
  {
    if 0 <= b {
      OffTimes(b, bs);
    }
  }

  /** Commits one after the other, each of the blocks of one list. */
  ghost function Commits(s: Store, lists: seq<seq<Block>>, crc: Checksum): Store
    requires Is32Bit(crc)
  {
    if lists == [] then s else Put(Commits(s, lists[..|lists| - 1], crc), lists[|lists| - 1], crc)
  }

  ghost function FramesOf(lists: seq<seq<Block>>): nat {
    if lists == [] then 0 else FramesOf(lists[..|lists| - 1]) + |lists[|lists| - 1]|
  }

  function Nonempty(lists: seq<seq<Block>>): nat {
    |set i | 0 <= i < |lists| && lists[i] != []|
  }

  /** Every commit of any block counts once, and every block of it as a frame. */
  lemma {:induction false} CommitsCount(s: Store, lists: seq<seq<Block>>, crc: Checksum)
    requires Is32Bit(crc)
    ensures var s' := Commits(s, lists, crc);
      s'.committed == s.committed + Nonempty(lists) && s'.end == s.end + FramesOf(lists)
  {
    hide PutFrame, PutFrames;
    var some := set i | 0 <= i < |lists| && lists[i] != [];
    if lists == [] {
      assert some == {};
    } else {
      var n := |lists| - 1;
      CommitsCount(s, lists[..n], crc);
      FramesCount(Commits(s, lists[..n], crc), lists[n], |lists[n]|, crc);
      var before := set i | 0 <= i < n && lists[..n][i] != [];
      assert some == if lists[n] == [] then before else before + {n};
    }
  }

  lemma {:induction false} FramesCount(s: Store, blocks: seq<Block>, k: nat, crc: Checksum)
    requires Is32Bit(crc) && k <= |blocks|
    ensures PutFrames(s, blocks, k, crc).end == s.end + k && PutFrames(s, blocks, k, crc).committed == s.committed
  {
    hide WithFrame;
    if k > 0 {
      FramesCount(s, blocks, k - 1, crc);
    }
  }

  /** The next free block ID moves just past the one taken, if at all. */
  lemma LaterIsNext(next: BlockID, b: BlockID)
    ensures next <= Later(next, b) && b < Later(next, b)
    ensures Later(next, b) == next || Later(next, b) == b + 1
    ensures b < next ==> Later(next, b) == next
  {
  }
}

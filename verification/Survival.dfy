/** The layers together: a tree in pages, pages in blocks, blocks in a log that
    may be cut short. */
module Survival {
  import opened Options
  import opened Bytes
  import opened Files
  import opened Metadata
  import opened Pages
  import P = PageCodec
  import opened TreeShape
  import opened WalLog
  import opened WalState
  import opened Checkpointing
  import opened Recovery
  import opened Storage
  import opened StoragePagers

  /* ---- pages do not tell what the storage engine may change ---- */

  /** Blocks that compare equal hold the same page. */
  lemma SamePage(id: PageID, x: Option<Bytes>, y: Option<Bytes>)
    requires 0 <= id && Norm(id, x) == Norm(id, y)
    requires (x.Some? ==> MIN_PAGE <= |x.value|) && (y.Some? ==> MIN_PAGE <= |y.value|)
    ensures PageIn(id, x) == PageIn(id, y)
  {
    hide P.Decoded;
    if id == ROOT_SCHEMA_PAGE {
      if x.Some? {
        MaskedTail(x.value, y.value);
      }
    } else {
      BlankPage(id, x);
      BlankPage(id, y);
    }
  }

  lemma MaskedTail(x: Bytes, y: Bytes)
    requires METADATA_LENGTH <= |x| && METADATA_LENGTH <= |y| && Masked(x) == Masked(y)
    ensures x[METADATA_LENGTH..] == y[METADATA_LENGTH..]
  {
    assert Masked(x)[METADATA_LENGTH..] == x[METADATA_LENGTH..];
    assert Masked(y)[METADATA_LENGTH..] == y[METADATA_LENGTH..];
  }

  lemma BlankPage(id: PageID, x: Option<Bytes>)
    requires x.Some? ==> MIN_PAGE <= |x.value|
    ensures x.Some? && AllZero(x.value) ==> PageIn(id, x) == P.EmptyPage
  {
    if x.Some? && AllZero(x.value) {
      var data := PagePart(id, x.value);
      assert data == Zeros(|data|);
      BlankIsEmpty(data);
    }
  }

  /** Nor do they tell a filled-in block 0 from an absent one. */
  lemma FilledPage(id: PageID, r: Option<Bytes>, bs: nat, moves: bool)
    requires MIN_PAGE <= bs && (r.Some? ==> MIN_PAGE <= |r.value|)
    ensures PageIn(id, Filled(id, r, bs, moves)) == PageIn(id, r)
  {
    hide P.Decoded;
    BlankPage(id, Some(Zeros(bs)));
  }

  /* ---- page maps across events ---- */

  /** The pages a transaction finds that has put these blocks over the newest state. */
  ghost predicate ShowsOver(pages: PageMap, s: Store, blocks: seq<Block>)
    requires Indexed(s)
  {
    forall id :: 0 <= id ==> Stood(pages, s, blocks, id)
  }

  ghost predicate Stood(pages: PageMap, s: Store, blocks: seq<Block>, id: PageID)
    requires Indexed(s)
  {
    (Over(s, blocks, id).Some? ==> MIN_PAGE <= |Over(s, blocks, id).value|) && Stands(pages, id, Over(s, blocks, id))
  }

  /** The blocks an event tries to commit, and those it does. */
  ghost function Attempted(e: Event): seq<Block> {
    match e
    case Commit(blocks) => blocks
    case CommitCrash(blocks, _, _, _) => blocks
    case _ => []
  }

  ghost function Achieved(s: Store, e: Event, crc: Checksum): seq<Block>
    requires Is32Bit(crc) && CanHappen(s, e, crc)
  {
    match e
    case Commit(blocks) => blocks
    case CommitCrash(blocks, k, stage, _) => Landed(s, blocks, k, stage, crc)
    case _ => []
  }

  /** After a commit, a checkpoint, or a crash in either and recovery, a page map
      stands in the blocks exactly if it stood in what was achieved over the
      blocks before. */
  lemma EventPages(s: Store, e: Event, crc: Checksum, pages: PageMap)
    requires Is32Bit(crc) && Settled(s, crc) && CanHappen(s, e, crc) && MIN_PAGE <= s.bs
    requires ShowsOver(pages, s, Achieved(s, e, crc))
    ensures var s' := After(s, e, crc);
      Settled(s', crc) && s'.bs == s.bs && Shows(pages, s', s'.maxID)
  {
    hide Settled, Indexed, Norm, Read, After, CanHappen, Filled, PageIn, Names, LastBuf, Stood, SpecRead, Achieved;
    SettledIndexed(s, crc);
    EventReads(s, e, crc);
    var s' := After(s, e, crc);
    SettledIndexed(s', crc);
    SameBlockSize(s, e, crc);
    forall id | 0 <= id
      ensures StandsIn(pages, s', id, s'.maxID)
    {
      assert Stood(pages, s, Achieved(s, e, crc), id);
      EventPage(s, e, crc, pages, id);
    }
  }

  lemma SameBlockSize(s: Store, e: Event, crc: Checksum)
    requires Is32Bit(crc) && CanHappen(s, e, crc)
    ensures After(s, e, crc).bs == s.bs
  {
    match e {
      case Commit(blocks) => PutKeepsMain(s, blocks, crc);
      case _ =>
    }
  }

  lemma EventPage(s: Store, e: Event, crc: Checksum, pages: PageMap, id: PageID)
    requires Is32Bit(crc) && Settled(s, crc) && CanHappen(s, e, crc) && MIN_PAGE <= s.bs && 0 <= id
    requires Stood(pages, s, Achieved(s, e, crc), id)
    requires var s' := After(s, e, crc);
      Indexed(s') && s'.bs == s.bs && Norm(id, Read(s', id, s'.maxID)) == Norm(id,
          SpecRead(s, e, crc, id, Read(s, id, s.maxID)))
    ensures StandsIn(pages, After(s, e, crc), id, After(s, e, crc).maxID)
  {
    hide LogOk, IndexIsLog, TornAt, Indexed, Norm, Read, After;
    hide Filled, PageIn, Names, LastBuf, Landed, CanCrash, P.Decoded;
    var s' := After(s, e, crc);
    var over := Over(s, Achieved(s, e, crc), id);
    var spec := SpecRead(s, e, crc, id, Read(s, id, s.maxID));
    BlockRead(s', id, s'.maxID);
    BlockRead(s, id, s.maxID);
    var moves := (e.Checkpoint? || e.CheckpointCrash?) && e.order != [];
    NoNames(id);
    NotFilled(s.bs);
    assert spec == Filled(id, over, s.bs, moves);
    FilledPage(id, over, s.bs, moves);
    FilledSize(id, over, s.bs, moves);
    SamePage(id, Read(s', id, s'.maxID), spec);
  }

  lemma FilledSize(id: PageID, r: Option<Bytes>, bs: nat, moves: bool)
    requires MIN_PAGE <= bs && (r.Some? ==> MIN_PAGE <= |r.value|)
    ensures Filled(id, r, bs, moves).Some? ==> MIN_PAGE <= |Filled(id, r, bs, moves).value|
  {
  }

  /* ---- trees across events ---- */

  /** Under this root the newest state holds a well-formed tree of these entries. */
  ghost predicate HoldsTree(s: Store, root: PageID, contents: map<Bytes, Bytes>)
    requires Indexed(s) && MIN_PAGE <= s.bs
  {
    exists pages, shape :: Shows(pages, s, s.maxID) && TreeOk(pages, shape, root, {}) && shape.contents == contents
  }

  /** A transaction that took one well-formed tree to another is all or nothing:
      after its commit, or a crash anywhere inside it and recovery, the blocks
      hold the old tree or the new one, unless a torn header was mistaken for
      that of a leftover payload. A checkpoint, and a crash in one, keep the old. */
  lemma TreeSurvives(s: Store, e: Event, crc: Checksum, root: PageID,
                     pages: PageMap, shape: Shape, pages': PageMap, shape': Shape)
    requires Is32Bit(crc) && Settled(s, crc) && CanHappen(s, e, crc) && MIN_PAGE <= s.bs
    requires Shows(pages, s, s.maxID) && TreeOk(pages, shape, root, {})
    requires ShowsOver(pages', s, Attempted(e)) && TreeOk(pages', shape', root, {})
    ensures var s' := After(s, e, crc);
      && Settled(s', crc) && s'.bs == s.bs
      && (Achieved(s, e, crc) == Attempted(e) ==> HoldsTree(s', root, shape'.contents))
      && (Achieved(s, e, crc) == [] ==> HoldsTree(s', root, shape.contents))
  {
    hide Settled, Indexed, Read, After, CanHappen, Stood, Achieved, Shows, TreeOk, ShowsOver;
    var s' := After(s, e, crc);
    SettledIndexed(s, crc);
    EventReads(s, e, crc);
    SameBlockSize(s, e, crc);
    if Achieved(s, e, crc) == Attempted(e) {
      EventPages(s, e, crc, pages');
    }
    if Achieved(s, e, crc) == [] {
      NothingOver(pages, s);
      EventPages(s, e, crc, pages);
    }
    SettledIndexed(s', crc);
  }

  lemma NothingOver(pages: PageMap, s: Store)
    requires Indexed(s) && MIN_PAGE <= s.bs && Shows(pages, s, s.maxID)
    ensures ShowsOver(pages, s, [])
  {
    hide Indexed, Read, Stands;
    forall id | 0 <= id
      ensures Stood(pages, s, [], id)
    {
      assert StandsIn(pages, s, id, s.maxID);
      BlockRead(s, id, s.maxID);
      NoNames(id);
    }
  }

  /** What a pager's transaction represents is what its commit's blocks show. */
  lemma RepresentedIsShown(store: TxStorage, blocks: seq<Block>, pages: PageMap)
    requires store.wal.Valid() && BlocksFit(store) && Represents(pages, store)
    requires store.maxWalBlock == store.wal.maxWalID && Lists(blocks, store.dirtyBlocks, {})
    ensures ShowsOver(pages, store.wal.State(), blocks)
  {
    hide Indexed, WalStorage.OffsetsAreSlots, Read, Stands, Numbered, Names, LastBuf, Lists;
    ListedNames(blocks, store.dirtyBlocks);
    var s := store.wal.State();
    forall id | 0 <= id
      ensures Stood(pages, s, blocks, id)
    {
      FitAt(store, id);
      assert Over(s, blocks, id) == View(store, id);
      assert Stands(pages, id, View(store, id));
    }
  }

  /** After the commit of a transaction that was alone, and the checkpoint that
      may follow, the next reader finds exactly the pages it had put. */
  lemma CommittedIsShown(s: Store, o: Outcome, s': Store, crc: Checksum, pages: PageMap)
    requires Is32Bit(crc) && Settled(s, crc) && MIN_PAGE <= s.bs && Serial(s, o, s', crc)
    requires ShowsOver(pages, s, o.blocks)
    ensures Settled(s', crc) && s'.bs == s.bs && Shows(pages, s', s'.maxID)
  {
    hide Settled, Indexed, After, CanHappen, Stood, Shows, ShowsOver;
    var s0, events := s.(txs := map[]), SerialEvents(o);
    SettledBeside(s, s0, crc);
    SettledIndexed(s, crc);
    SettledIndexed(s0, crc);
    OverBeside(pages, s, s0, o.blocks);
    FirstEvent(s0, events, crc);
    EventPages(s0, events[0], crc, pages);
    if o.moved != [] {
      var s1 := After(s0, events[0], crc);
      SettledIndexed(s1, crc);
      NothingOver(pages, s1);
      FirstEvent(s1, events[1..], crc);
      EventPages(s1, events[1], crc, pages);
    }
  }

  lemma FirstEvent(s: Store, events: seq<Event>, crc: Checksum)
    requires Is32Bit(crc) && events != [] && History(s, events, crc)
    ensures CanHappen(s, events[0], crc) && History(After(s, events[0], crc), events[1..], crc)
    ensures Final(s, events, crc) == Final(After(s, events[0], crc), events[1..], crc)
    ensures |events| == 1 ==> Final(s, events, crc) == After(s, events[0], crc)
  {
    hide CanHappen, After;
  }

  lemma OverBeside(pages: PageMap, s: Store, s': Store, blocks: seq<Block>)
    requires Indexed(s) && Indexed(s') && s' == s.(txs := s'.txs, nextTx := s'.nextTx) && ShowsOver(pages, s, blocks)
    ensures ShowsOver(pages, s', blocks)
  {
    hide Indexed, Read, Stands, Names, LastBuf;
    forall id | 0 <= id
      ensures Stood(pages, s', blocks, id)
    {
      assert Stood(pages, s, blocks, id);
      SameReads(s, s', id, s.maxID);
    }
  }
}

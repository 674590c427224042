/** One insertion through every layer: tree, pages, blocks and log. */
module Durability {
  import opened Options
  import opened Bytes
  import opened Files
  import M = Metadata
  import opened Pages
  import P = PageCodec
  import opened TreeShape
  import opened TreeRoom
  import opened BTree
  import opened WalLog
  import opened WalState
  import opened Checkpointing
  import opened Recovery
  import opened Storage
  import opened StoragePagers
  import opened Survival

  /** The encoder takes every page of a tree whose page IDs are 63-bit numbers. */
  lemma TreePagesEncodable(pages: PageMap, s: Shape, root: PageID)
    requires TreeOk(pages, s, root, {}) && forall p :: p in s.nodes ==> 0 <= p < TWO_63
    ensures forall p :: p in s.nodes ==> P.Encodable(Load(pages, p))
  {
    hide Layout, Sorted;
    forall p | p in s.nodes
      ensures P.Encodable(Load(pages, p))
    {
      PageEncodable(Load(pages, p), s, s.nodes[p]);
    }
  }

  lemma PageEncodable(pg: Page, s: Shape, n: Info)
    requires PageOk(pg, s, n, MAX_CHILDREN - 1) && forall p :: p in s.nodes ==> 0 <= p < TWO_63
    ensures P.Encodable(pg)
  {
    hide Sorted, Covers, ChildInfo;
    if n.level != 0 {
      forall c | c in pg.children
        ensures 0 <= c < TWO_63
      {
        var i :| 0 <= i < |pg.children| && pg.children[i] == c;
      }
    }
  }

  /** A page that the storage pager takes and gives back. */
  ghost predicate Puttable(pages: PageMap, id: PageID, pageSize: nat) {
    0 <= id < TWO_63 && P.Encodable(Load(pages, id)) && Fits(Load(pages, id), pageSize)
  }

  /** The IDs of the pages that are not as they were. */
  function Changed(pages: PageMap, pages': PageMap): set<PageID> {
    set id | id in pages' && (id !in pages || pages'[id] != pages[id])
  }

  /** Pages in rest are as in one map, all others as in the other. */
  ghost predicate Between(pages: PageMap, pages': PageMap, rest: set<PageID>, mixed: PageMap) {
    && mixed.Keys + rest == pages'.Keys
    && (forall id :: id in mixed ==> Load(mixed, id) == Load(if id in rest then pages else pages', id))
    && (forall id :: id in rest ==> (id in mixed <==> id in pages))
  }

  lemma BetweenMore(pages: PageMap, pages': PageMap, rest: set<PageID>, mixed: PageMap, id: PageID)
    requires Between(pages, pages', rest, mixed) && id in rest
    ensures Between(pages, pages', rest - {id}, mixed[id := Load(pages', id)])
  {
  }

  lemma BetweenAll(pages: PageMap, pages': PageMap, mixed: PageMap, store: TxStorage)
    requires store.wal.Valid() && BlocksFit(store) && Represents(mixed, store) && Between(pages, pages', {}, mixed)
    ensures Represents(pages', store)
  {
    hide Indexed, WalStorage.OffsetsAreSlots, Read, PageIn, Numbered;
    forall id | 0 <= id
      ensures Stands(pages', id, View(store, id))
    {
      assert Stands(mixed, id, View(store, id));
      assert id in mixed.Keys <==> id in pages'.Keys;
      assert id in mixed ==> Load(mixed, id) == Load(pages', id);
    }
  }

  /** The blocks a transaction is going to commit are of the page size. */
  ghost predicate DirtyOfSize(dirty: map<BlockID, Bytes>, pageSize: nat) {
    forall b :: b in dirty ==> 0 <= b < TWO_63 && |dirty[b]| == pageSize
  }

  /** Puts every page that is not as it was. */
  method PutPages(p: StoragePager, pages: PageMap, pages': PageMap)
    requires p.Valid() && p.pageSize <= TWO_16 && Represents(pages, p.store) && pages.Keys <= pages'.Keys
    requires MetadataIn(View(p.store, ROOT_SCHEMA_PAGE), p.store.wal.crc).Some?
    requires forall id :: id in Changed(pages, pages') ==> Puttable(pages', id, p.pageSize)
    requires DirtyOfSize(p.store.dirtyBlocks, p.pageSize)
    modifies p.store
    ensures p.Valid() && Represents(pages', p.store) && DirtyOfSize(p.store.dirtyBlocks, p.pageSize)
  {
    hide Indexed, WalStorage.OffsetsAreSlots, Read, P.Encodable, P.Reaches;
    hide Fits, Represents, MetadataIn, Changed, Between, Numbered;
    var rest := Changed(pages, pages');
    ghost var mixed := pages;
    NothingPut(pages, pages');
    while rest != {}
      invariant p.Valid() && Represents(mixed, p.store) && Between(pages, pages', rest, mixed)
      invariant MetadataIn(View(p.store, ROOT_SCHEMA_PAGE), p.store.wal.crc).Some?
      invariant rest <= Changed(pages, pages') && DirtyOfSize(p.store.dirtyBlocks, p.pageSize)
      decreases rest
    {
      var id := Pick(rest);
      var page := pages'[id].(id := id);
      P.SmallPagesReach(page, p.pageSize);
      var saved := p.PutPage(id, page, mixed);
      BetweenMore(pages, pages', rest, mixed, id);
      mixed := mixed[id := page];
      rest := rest - {id};
    }
    BetweenAll(pages, pages', mixed, p.store);
  }

  lemma NothingPut(pages: PageMap, pages': PageMap)
    requires pages.Keys <= pages'.Keys
    ensures Between(pages, pages', Changed(pages, pages'), pages)
  {
    forall id | id in pages
      ensures id in pages'.Keys
    {
    }
  }

  /** The block size is the page size that the metadata says. */
  ghost predicate SizesMatch(s: Store, crc: M.Checksum)
    requires Indexed(s) && MIN_PAGE <= s.bs
  {
    BlockRead(s, 0, s.maxID);
    var m := MetadataIn(Read(s, 0, s.maxID), crc);
    m.Some? ==> M.PageSize(m.value) == s.bs
  }

  ghost predicate HeaderShown(s: Store, crc: M.Checksum)
    requires Indexed(s) && MIN_PAGE <= s.bs
  {
    BlockRead(s, 0, s.maxID);
    MetadataIn(Read(s, 0, s.maxID), crc).Some?
  }

  /** The blocks of a settled engine hold this tree, in pages that fit. */
  ghost predicate Planted(s: Store, pages: PageMap, shape: Shape, root: PageID)
    requires Indexed(s) && MIN_PAGE <= s.bs
  {
    && Shows(pages, s, s.maxID) && AllFit(pages, s.bs) && TreeOk(pages, shape, root, {})
    && (forall p :: p in shape.nodes ==> 0 <= p < s.nextBlock)
    && s.nextBlock + shape.nodes[root].level + 2 <= TWO_63
  }

  lemma HeaderIsShown(s: Store, tx: TxStorage, crc: M.Checksum)
    requires Indexed(s) && MIN_PAGE <= s.bs && tx.wal.Valid() && BlocksFit(tx) && View(tx, 0) == Read(s, 0, s.maxID)
    ensures View(tx, 0).Some? ==> MIN_PAGE <= |View(tx, 0).value|
    ensures HeaderShown(s, crc) <==> MetadataIn(View(tx, 0), crc).Some?
    ensures SizesMatch(s, crc) && HeaderShown(s, crc) ==> M.PageSize(MetadataIn(View(tx, 0), crc).value) == s.bs
  {
    hide Indexed, WalStorage.OffsetsAreSlots, Read, M.Decoded, Numbered;
    BlockRead(s, 0, s.maxID);
  }

  lemma ShownIsRepresented(s: Store, pages: PageMap, tx: TxStorage)
    requires Indexed(s) && MIN_PAGE <= s.bs && Shows(pages, s, s.maxID)
    requires tx.wal.Valid() && BlocksFit(tx) && forall b :: View(tx, b) == Read(s, b, s.maxID)
    ensures Represents(pages, tx)
  {
    hide Indexed, WalStorage.OffsetsAreSlots, Read, Numbered, Stands;
    forall id | 0 <= id
      ensures Stands(pages, id, View(tx, id))
    {
      FitAt(tx, id);
      assert StandsIn(pages, s, id, s.maxID);
    }
  }

  /** Every page the insertion wrote is one of the tree. */
  lemma AllPuttable(pages: PageMap, pager: Pager, shape: Shape, root: PageID)
    requires pager.Tidy() && TreeOk(pager.pages, shape, root, {}) && pager.nextID <= TWO_63
    requires (forall p :: p in shape.nodes ==> 0 <= p < pager.nextID) && WrittenInside(pages, pager.pages, shape)
    ensures pages.Keys <= pager.pages.Keys
    ensures forall id :: id in Changed(pages, pager.pages) ==> Puttable(pager.pages, id, pager.pageSize)
  {
    hide TreeOk, P.Encodable, Fits;
    TreePagesEncodable(pager.pages, shape, root);
    forall id | id in pages.Keys
      ensures id in pager.pages.Keys
    {
    }
  }

  lemma CommitShows(s: Store, s1: Store, dirty: map<BlockID, Bytes>, id: TxID, o: Outcome, s': Store, ok: bool,
                    crc: M.Checksum, pages: PageMap)
    requires M.Is32Bit(crc) && Settled(s, crc) && s.txs == map[] && MIN_PAGE <= s.bs && Indexed(s1)
    requires s1 == s.(txs := s1.txs, nextTx := s.nextTx + 1) && Settled(s1, crc)
    requires CommittedAs(s1, dirty, id, o, s', ok, crc) && Serial(s1, o, s', crc)
    requires forall blocks :: Lists(blocks, dirty, {}) ==> ShowsOver(pages, s1, blocks)
    ensures Settled(s', crc) && Indexed(s) && Indexed(s') && s'.bs == s.bs
    ensures Shows(pages, s', s'.maxID) && ShowsOver(pages, s, o.blocks)
    ensures Serial(s.(nextTx := s.nextTx + 1), o, s', crc)
  {
    hide Settled, Indexed, Put, Checkpointed, Splits, IsGate;
    hide HeaderReadable, Moved, Lists, Due, Serial, ShowsOver, Shows;
    SettledIndexed(s, crc);
    CommittedIsShown(s1, o, s', crc, pages);
    SettledIndexed(s', crc);
    OverBeside(pages, s1, s, o.blocks);
    SerialAlone(s, s1, o, s', crc);
  }

  /** One entry, from the tree to the log: on a settled engine without other
      transactions it is inserted exactly if the header is readable and the pages
      have room, and then the next reader finds the tree with it. The blocks
      committed are those of that tree, so a crash inside the commit leaves the
      old tree or the new one. */
  method InsertAndCommit(wal: WalStorage, pages: PageMap, root: PageID, ghost shape: Shape, key: Bytes, value: Bytes)
    returns (saved: bool, ghost pages': PageMap, ghost shape': Shape, ghost o: Outcome)
    requires wal.Valid() && Settled(wal.State(), wal.crc) && wal.txUsingWalIDs == map[]
    requires MIN_PAGE <= wal.blockSize <= TWO_16 && SizesMatch(wal.State(), wal.crc)
    requires Planted(wal.State(), pages, shape, root)
    modifies wal, wal.main, wal.wal
    ensures wal.Valid() && Settled(wal.State(), wal.crc) && Indexed(old(wal.State()))
    ensures saved <==> old(HeaderShown(wal.State(), wal.crc)) && HasRoom(pages, shape, root, key, value, wal.blockSize)
    ensures !saved ==> wal.State() == old(wal.State()).(nextTx := old(wal.nextTxID) + 1)
    ensures saved ==>
              && Shows(pages', wal.State(), wal.maxWalID) && TreeOk(pages', shape', root, {})
              && shape'.contents == shape.contents[key := value]
    ensures saved ==>
              && ShowsOver(pages', old(wal.State()), o.blocks)
              && Serial(old(wal.State()).(nextTx := old(wal.nextTxID) + 1), o, wal.State(), wal.crc)
  {
    hide Indexed, WalStorage.OffsetsAreSlots, Read, P.Encodable, Fits;
    hide Represents, MetadataIn, Changed, Numbered, Settled;
    hide TreeOk, HasRoom, Shows, ShowsOver, Serial, CommittedAs;
    hide Published, Due, Splits, IsGate, Lists, HalfSplit, StaysWithin;
    hide WrittenInside, Grown, Dense, BlocksFit, WithPair;
    ghost var s0 := wal.State();
    pages', shape', o := pages, shape, Outcome([], 0, [], []);
    var p, ok := Begin(wal);
    ghost var s1 := wal.State();
    var tx := p.store;
    HeaderIsShown(s0, tx, wal.crc);
    SettledBeside(s0, s1, wal.crc);
    if !ok {
      tx.Rollback();
      saved := false;
      return;
    }
    ShownIsRepresented(s0, pages, tx);
    var pager := new Pager(pages, p.nextID, p.pageSize);
    var tree := new Tree(pager, root, shape);
    saved := tree.Insert(key, value);
    if !saved {
      tx.Rollback();
      return;
    }
    pages', shape' := pager.pages, tree.shape;
    AllPuttable(pages, pager, shape', root);
    o := CommitPages(p, pages, pager.pages, s0);
  }

  /** Puts the pages of a transaction that is alone on the engine s, and commits. */
  method CommitPages(p: StoragePager, pages: PageMap, pages': PageMap, ghost s: Store) returns (ghost o: Outcome)
    requires p.Valid() && p.pageSize == p.store.wal.blockSize <= TWO_16 && p.store.dirtyBlocks == map[]
    requires Represents(pages, p.store) && pages.Keys <= pages'.Keys
    requires MetadataIn(View(p.store, ROOT_SCHEMA_PAGE), p.store.wal.crc).Some?
    requires forall id :: id in Changed(pages, pages') ==> Puttable(pages', id, p.pageSize)
    requires Settled(s, p.store.wal.crc) && s.txs == map[] && p.store.maxWalBlock == p.store.wal.maxWalID
    requires p.store.wal.State() == s.(txs := p.store.wal.txUsingWalIDs, nextTx := s.nextTx + 1)
    requires p.store.wal.txUsingWalIDs.Keys <= {p.store.id}
    modifies p.store, p.store.wal, p.store.wal.main, p.store.wal.wal
    ensures var wal := p.store.wal;
      && wal.Valid() && Settled(wal.State(), wal.crc) && Indexed(s) && wal.blockSize == s.bs
      && Shows(pages', wal.State(), wal.maxWalID) && ShowsOver(pages', s, o.blocks)
      && Serial(s.(nextTx := s.nextTx + 1), o, wal.State(), wal.crc)
  {
    hide Indexed, WalStorage.OffsetsAreSlots, Read, P.Encodable, Represents;
    hide MetadataIn, Changed, Numbered, Settled, Puttable;
    hide Shows, ShowsOver, Serial, CommittedAs, Published, Due, Splits, IsGate, Lists, BlocksFit;
    var tx := p.store;
    ghost var s1 := tx.wal.State();
    SettledBeside(s, s1, tx.wal.crc);
    PutPages(p, pages, pages');
    forall blocks | Lists(blocks, tx.dirtyBlocks, {})
      ensures ShowsOver(pages', s1, blocks)
    {
      RepresentedIsShown(tx, blocks, pages');
    }
    ghost var dirty := tx.dirtyBlocks;
    var ok;
    ok, o := tx.Commit();
    CommitShows(s, s1, dirty, tx.id, o, tx.wal.State(), ok, tx.wal.crc, pages');
  }
}

/** Pages and database metadata on top of one storage transaction. */
module StoragePagers {
  import opened Options
  import opened Bytes
  import opened Files
  import M = Metadata
  import opened Pages
  import P = PageCodec
  import opened WalLog
  import opened WalState
  import opened Checkpointing
  import opened Recovery
  import opened PartialCheckpoints
  import opened Storage
  import opened TreeShape
  import opened BTree

  /** Pages at least this large hold a page header beside the metadata. */
  const MIN_PAGE: nat := 256

  /** What a transaction sees: its own writes over the snapshot it opened with. */
  ghost function View(store: TxStorage, b: BlockID): Option<Bytes>
    requires store.wal.Valid()
    reads store, store.wal, store.wal.main, store.wal.wal
  {
    if b in store.dirtyBlocks then Some(store.dirtyBlocks[b]) else Read(store.wal.State(), b, store.maxWalBlock)
  }

  /** The page part of a block: the root schema page comes after the metadata. */
  function PagePart(id: PageID, buf: Bytes): Bytes {
    if id == ROOT_SCHEMA_PAGE && |buf| >= M.METADATA_LENGTH then buf[M.METADATA_LENGTH..] else buf
  }

  /** The page a block holds; a missing block is an empty page. */
  function PageIn(id: PageID, block: Option<Bytes>): P.DecodeResult
    requires block.Some? ==> MIN_PAGE <= |block.value|
  {
    match block case None => P.EmptyPage case Some(buf) => P.Decoded(PagePart(id, buf))
  }

  /** The metadata block 0 holds; None where its header is damaged. */
  function MetadataIn(block: Option<Bytes>, crc: M.Checksum): Option<M.Metadata>
    requires block.Some? ==> MIN_PAGE <= |block.value|
  {
    match block case None => Some(M.FRESH) case Some(buf) => M.Decoded(buf[..M.METADATA_LENGTH], crc)
  }

  /** The page map of a transaction: block by block, the pages last put. */
  ghost predicate Represents(pages: map<PageID, Page>, store: TxStorage)
    requires store.wal.Valid() && BlocksFit(store)
    reads store, store.wal, store.wal.main, store.wal.wal
  {
    forall id :: 0 <= id ==> Stands(pages, id, View(store, id))
  }

  ghost predicate Stands(pages: map<PageID, Page>, id: PageID, block: Option<Bytes>)
    requires block.Some? ==> MIN_PAGE <= |block.value|
  {
    PageIn(id, block) == if id in pages then P.PageOk(pages[id].(id := 0)) else P.EmptyPage
  }

  ghost predicate BlocksFit(store: TxStorage)
    requires store.wal.Valid()
    reads store, store.wal, store.wal.main, store.wal.wal
  {
    forall b :: 0 <= b && View(store, b).Some? ==> MIN_PAGE <= |View(store, b).value|
  }

  class StoragePager {
    const store: TxStorage
    var nextID: PageID
    var pageSize: nat

    constructor (store: TxStorage, nextID: PageID, pageSize: nat)
      ensures this.store == store && this.nextID == nextID && this.pageSize == pageSize
    {
      this.store, this.nextID, this.pageSize := store, nextID, pageSize;
    }

    ghost predicate Valid()
      reads this, store, store.wal, store.wal.main, store.wal.wal
    {
      store.wal.Valid() && BlocksFit(store) && MIN_PAGE <= pageSize
    }

    /** The last page put, or an empty page. */
    method GetPage(id: PageID) returns (r: P.DecodeResult, ok: bool)
      requires Valid() && 0 <= id
      ensures ok ==> r == PageIn(id, View(store, id))
      ensures ok
    {
      hide Indexed, WalStorage.OffsetsAreSlots, P.Decoded, Read;
      FitAt(store, id);
      var block := store.GetBlock(id);
      r, ok := P.EmptyPage, true;
      match block {
        case EmptyBlock =>
        case ReadError => ok := false;
        case Found(buf) => r := P.Decode(PagePart(id, buf));
      }
    }

    method GetMetadata() returns (m: M.Metadata, ok: bool)
      requires store.wal.Valid() && BlocksFit(store)
      ensures ok <==> MetadataIn(View(store, ROOT_SCHEMA_PAGE), store.wal.crc).Some?
      ensures ok ==> MetadataIn(View(store, ROOT_SCHEMA_PAGE), store.wal.crc) == Some(m)
    {
      hide Indexed, WalStorage.OffsetsAreSlots, M.Decoded, Read;
      FitAt(store, ROOT_SCHEMA_PAGE);
      var block := store.GetBlock(ROOT_SCHEMA_PAGE);
      m, ok := M.FRESH, true;
      match block {
        case EmptyBlock =>
        case ReadError => ok := false;
        case Found(buf) =>
          var decoded := M.Decoded(buf[..M.METADATA_LENGTH], store.wal.crc);
          ok := decoded.Some?;
          if ok {
            m := decoded.value;
          }
      }
    }

    /** Puts a page: the transaction then has exactly this page more, and the
        metadata it had. A page that does not fit changes nothing. */
    method PutPage(id: PageID, page: Page, ghost pages: map<PageID, Page>) returns (saved: bool)
      requires Valid() && 0 <= id && page.id == id && P.Encodable(page)
      modifies store
      ensures Valid()
      ensures saved <==>
        Fits(page, pageSize) && (id == ROOT_SCHEMA_PAGE ==> old(MetadataIn(View(store, id), store.wal.crc)).Some?)
      ensures !saved ==> store.dirtyBlocks == old(store.dirtyBlocks)
      ensures saved ==>
                && id in store.dirtyBlocks && |store.dirtyBlocks[id]| == pageSize
                && store.dirtyBlocks == old(store.dirtyBlocks)[id := store.dirtyBlocks[id]]
      ensures saved && P.Reaches(page, pageSize) ==> PageIn(id, View(store, id)) == P.PageOk(page.(id := 0))
      ensures forall b :: b != id ==> View(store, b) == old(View(store, b))
      ensures saved ==>
        MetadataIn(View(store, ROOT_SCHEMA_PAGE), store.wal.crc) ==
            old(MetadataIn(View(store, ROOT_SCHEMA_PAGE), store.wal.crc))
      ensures saved && P.Reaches(page, pageSize) && old(Represents(pages, store)) ==>
        Represents(pages[id := page], store)
    {
      hide Indexed, WalStorage.OffsetsAreSlots, P.Decoded, P.Holds, P.Encodable, M.Decoded;
      hide M.Encoded, Read, Fits, P.Reaches, PageIn, MetadataIn;
      Shaped(page);
      var encoded, bytes := P.Encode(page, pageSize);
      if !encoded {
        return false;
      }
      var buf := bytes[..];
      if id == ROOT_SCHEMA_PAGE {
        var m, ok := GetMetadata();
        if !ok {
          return false;
        }
        HeaderJoined(View(store, id), m, store.wal.crc, buf);
        buf := M.Encoded(m, store.wal.crc) + buf;
      }
      OwnPagePart(id, page, pageSize, bytes[..], buf);
      store.PutBlock(id, buf);
      forall b | 0 <= b && View(store, b).Some?
        ensures MIN_PAGE <= |View(store, b).value|
      {
        assert b != id ==> View(store, b) == old(View(store, b));
      }
      saved := true;
    }

    /** Rewrites the metadata in front of the root page, which stays as it is,
        and fixes the page size from then on. */
    method PutMetadata(m: M.Metadata)
      requires Valid() && M.InRange(m) && MIN_PAGE <= M.PageSize(m) && 0 <= store.wal.nextBlockID
      modifies this`pageSize, store
      ensures Valid() && pageSize == M.PageSize(m)
      ensures MetadataIn(View(store, ROOT_SCHEMA_PAGE), store.wal.crc) ==
        Some(m.(numberOfPages := store.wal.nextBlockID % TWO_32))
      ensures PageIn(ROOT_SCHEMA_PAGE, View(store, ROOT_SCHEMA_PAGE)) ==
        old(PageIn(ROOT_SCHEMA_PAGE, View(store, ROOT_SCHEMA_PAGE)))
      ensures forall b :: b != ROOT_SCHEMA_PAGE ==> View(store, b) == old(View(store, b))
    {
      hide Indexed, WalStorage.OffsetsAreSlots, P.Decoded, M.Decoded, M.Encoded;
      hide Read, PageIn, MetadataIn, M.InRange, M.PageSize;
      var pages := store.wal.NextBlockID();
      var m' := m.(numberOfPages := pages % TWO_32);
      StillInRange(m, pages % TWO_32);
      var blockSize := M.PageSize(m);
      FitAt(store, ROOT_SCHEMA_PAGE);
      var block := store.GetBlock(ROOT_SCHEMA_PAGE);
      var buf := Zeros(blockSize - M.METADATA_LENGTH);
      if block.Found? {
        buf := PagePart(ROOT_SCHEMA_PAGE, block.buf);
      }
      RootKept(View(store, ROOT_SCHEMA_PAGE), m', store.wal.crc, buf);
      store.PutBlock(ROOT_SCHEMA_PAGE, M.Encoded(m', store.wal.crc) + buf);
      forall b | 0 <= b && View(store, b).Some?
        ensures MIN_PAGE <= |View(store, b).value|
      {
        assert b != ROOT_SCHEMA_PAGE ==> View(store, b) == old(View(store, b));
      }
      pageSize := blockSize;
    }

    /** The next page ID, never handed out again. Unless another transaction has
        gone past it since this one began, no block has it, neither committed nor
        seen by this transaction. */
    method NextID() returns (id: PageID)
      requires Valid()
      modifies this`nextID, store.wal`nextBlockID
      ensures Valid() && id == old(nextID) && nextID == id + 1
      ensures store.wal.State() == old(store.wal.State()).(nextBlock := Later(old(store.wal.nextBlockID), id))
      ensures old(store.wal.nextBlockID) <= id ==>
        id !in store.wal.walIndex && forall w :: Read(store.wal.State(), id, w) == None
      ensures old(store.wal.nextBlockID) <= id && id !in store.dirtyBlocks ==> View(store, id) == None
      ensures forall b :: View(store, b) == old(View(store, b))
    {
      hide Indexed, WalStorage.OffsetsAreSlots, Read, BelowNext, WatermarksKnown;
      ghost var s := store.wal.State();
      id := nextID;
      nextID := nextID + 1;
      store.wal.ReserveBlock(id);
      if s.nextBlock <= id {
        NextIsFree(s, id, 0);
        forall w
          ensures Read(s, id, w) == None
        {
          NextIsFree(s, id, w);
        }
      }
      forall b, w
        ensures Read(store.wal.State(), b, w) == Read(s, b, w)
      {
        SameNumbers(s, store.wal.State(), b, w);
      }
      forall b
        ensures View(store, b) == old(View(store, b))
      {
        assert Read(store.wal.State(), b, store.maxWalBlock) == Read(s, b, store.maxWalBlock);
      }
    }
  }

  lemma SameNumbers(s: Store, s': Store, b: BlockID, w: WalID)
    requires Indexed(s) && Indexed(s') && s' == s.(nextBlock := s'.nextBlock)
    ensures Read(s', b, w) == Read(s, b, w)
  {
  }

  /** Opens a transaction on the committed state: page IDs go on from the next
      block, which is above every block it can see, and pages have the size the
      metadata says. */
  method Begin(wal: WalStorage) returns (p: StoragePager, ok: bool)
    requires wal.Valid() && MIN_PAGE <= wal.blockSize
    modifies wal`txUsingWalIDs, wal`nextTxID
    ensures fresh(p) && fresh(p.store) && p.store.wal == wal && wal.Valid() && BlocksFit(p.store)
    ensures forall b :: View(p.store, b) == old(Read(wal.State(), b, wal.maxWalID))
    ensures p.nextID == wal.nextBlockID && p.store.dirtyBlocks == map[] && p.store.maxWalBlock == wal.maxWalID
    ensures wal.State() ==
      old(wal.State()).(txs := old(wal.txUsingWalIDs)[p.store.id := wal.maxWalID], nextTx := old(wal.nextTxID) + 1)
    ensures ok <==> MetadataIn(View(p.store, ROOT_SCHEMA_PAGE), wal.crc).Some?
    ensures View(p.store, ROOT_SCHEMA_PAGE) == None ==> ok && p.pageSize == 8192
    ensures ok ==> p.pageSize == M.PageSize(MetadataIn(View(p.store, ROOT_SCHEMA_PAGE), wal.crc).value)
    ensures forall pages :: Represents(pages, p.store) && AllFit(pages, p.pageSize) ==>
      TidyPages(pages, p.nextID, p.pageSize)
  {
    hide Indexed, WalStorage.OffsetsAreSlots, M.Decoded, MetadataIn, Read, Fits, Stands, BelowNext;
    ghost var s := wal.State();
    var tx := wal.NewTxStorage();
    forall b
      ensures View(tx, b) == Read(s, b, s.maxID)
      ensures View(tx, b).Some? ==> MIN_PAGE <= |View(tx, b).value|
    {
      SameView(s, wal.State(), b, s.maxID);
      BlockRead(s, b, s.maxID);
    }
    var nextID := wal.NextBlockID();
    p := new StoragePager(tx, nextID, 0);
    var m;
    m, ok := p.GetMetadata();
    if ok {
      p.pageSize := M.PageSize(m);
    }
    M.FreshDefaults();
    NoBlockIsFresh(wal.crc);
    forall pages | Represents(pages, p.store) && AllFit(pages, p.pageSize)
      ensures TidyPages(pages, p.nextID, p.pageSize)
    {
      ShownAreTidy(pages, s, s.maxID, p.pageSize);
    }
  }

  /** Page IDs are block IDs, and every page fits. */
  ghost predicate AllFit(pages: map<PageID, Page>, pageSize: nat) {
    forall id :: id in pages ==> 0 <= id && Fits(Load(pages, id), pageSize)
  }

  /** The pages that reader w finds in the store's blocks. */
  ghost predicate Shows(pages: map<PageID, Page>, s: Store, w: WalID)
    requires Indexed(s) && MIN_PAGE <= s.bs
  {
    forall id :: 0 <= id ==> StandsIn(pages, s, id, w)
  }

  ghost predicate StandsIn(pages: map<PageID, Page>, s: Store, id: PageID, w: WalID)
    requires Indexed(s) && MIN_PAGE <= s.bs
  {
    BlockRead(s, id, w);
    Stands(pages, id, Read(s, id, w))
  }

  /** The one page map a reader can find, if every block holds a page or none. */
  ghost function PagesIn(s: Store, w: WalID): map<PageID, Page>
    requires Indexed(s) && MIN_PAGE <= s.bs
  {
    map id: int | 0 <= id < s.nextBlock && PageAt(s, id, w).PageOk? :: PageAt(s, id, w).page
  }

  ghost function PageAt(s: Store, id: PageID, w: WalID): P.DecodeResult
    requires Indexed(s) && MIN_PAGE <= s.bs
  {
    BlockRead(s, id, w);
    PageIn(id, Read(s, id, w))
  }

  /** A committed state is a page map exactly when no block is damaged. */
  lemma UndamagedIsShown(s: Store, w: WalID)
    requires Indexed(s) && BelowNext(s) && MIN_PAGE <= s.bs
    ensures (exists pages :: Shows(pages, s, w)) <==>
      forall id :: 0 <= id ==> PageAt(s, id, w).PageOk? || PageAt(s, id, w) == P.EmptyPage
  {
    hide Indexed, Read, P.Decoded;
    if forall id :: 0 <= id ==> PageAt(s, id, w).PageOk? || PageAt(s, id, w) == P.EmptyPage {
      forall id | 0 <= id
        ensures StandsIn(PagesIn(s, w), s, id, w)
      {
        BlockRead(s, id, w);
        if Read(s, id, w) != None {
          SeenIsBelow(s, id, w);
          DecodedID(PagePart(id, Read(s, id, w).value));
        }
      }
      assert Shows(PagesIn(s, w), s, w);
    }
    forall pages, id | Shows(pages, s, w) && 0 <= id
      ensures PageAt(s, id, w).PageOk? || PageAt(s, id, w) == P.EmptyPage
    {
      assert StandsIn(pages, s, id, w);
    }
  }

  lemma DecodedID(buf: Bytes)
    requires P.HEADER_FIELDS <= |buf|
    ensures P.Decoded(buf).PageOk? ==> P.Decoded(buf).page.id == 0
  {
    var p := Page(0, buf[4] == 1, LEValue(buf[5..7]), ToInt64(LEValue(buf[7..15])), [], [], []);
    SlotsKeepID(buf, p, LEValue(buf[5..7]));
  }

  lemma {:induction false} SlotsKeepID(buf: Bytes, p: Page, n: nat)
    ensures P.FirstSlots(buf, p, n).PageOk? ==> P.FirstSlots(buf, p, n).page.id == p.id
  {
    if n > 0 {
      SlotsKeepID(buf, p, n - 1);
    }
  }

  /** All of them have IDs below the next free block. */
  lemma ShownAreTidy(pages: map<PageID, Page>, s: Store, w: WalID, pageSize: nat)
    requires Indexed(s) && BelowNext(s) && MIN_PAGE <= s.bs && Shows(pages, s, w) && AllFit(pages, pageSize)
    ensures TidyPages(pages, s.nextBlock, pageSize)
  {
    hide Fits, Read;
    forall id | id in pages
      ensures id < s.nextBlock
    {
      assert StandsIn(pages, s, id, w);
      SeenIsBelow(s, id, w);
    }
  }

  lemma SeenIsBelow(s: Store, b: BlockID, w: WalID)
    requires Indexed(s) && BelowNext(s) && Read(s, b, w) != None
    ensures b < s.nextBlock
  {
  }

  lemma SameView(s: Store, s': Store, b: BlockID, w: WalID)
    requires Indexed(s) && Indexed(s') && s' == s.(txs := s'.txs, nextTx := s'.nextTx)
    ensures Read(s', b, w) == Read(s, b, w)
  {
  }

  /** Whatever is read is one whole block. */
  lemma BlockRead(s: Store, b: BlockID, w: WalID)
    requires Indexed(s)
    ensures Read(s, b, w).Some? ==> |Read(s, b, w).value| == s.bs
  {
    if b in s.index {
      PayloadSize(s, b);
    }
  }

  lemma FitAt(store: TxStorage, id: PageID)
    requires store.wal.Valid() && BlocksFit(store) && 0 <= id
    ensures View(store, id).Some? ==> MIN_PAGE <= |View(store, id).value|
  {
  }

  lemma Shaped(page: Page)
    requires P.Encodable(page)
    ensures if page.isLeaf then |page.values| == |page.keys| else |page.keys| <= |page.children|
  {
  }

  lemma HeaderJoined(block: Option<Bytes>, m: M.Metadata, crc: M.Checksum, data: Bytes)
    requires M.Is32Bit(crc) && MIN_PAGE - M.METADATA_LENGTH <= |data|
    requires block.Some? ==> MIN_PAGE <= |block.value|
    requires MetadataIn(block, crc) == Some(m)
    ensures MetadataIn(Some(M.Encoded(m, crc) + data), crc) == Some(m)
  {
    hide M.Decoded, M.Encoded;
    if block.Some? {
      ReadInRange(block.value[..M.METADATA_LENGTH], crc);
    }
    M.MetadataRoundTrip(m, crc);
    assert (M.Encoded(m, crc) + data)[..M.METADATA_LENGTH] == M.Encoded(m, crc);
  }

  lemma ReadInRange(h: Bytes, crc: M.Checksum)
    requires |h| == M.METADATA_LENGTH
    ensures M.Decoded(h, crc).Some? ==> M.InRange(M.Decoded(h, crc).value)
  {
    M.DecodedInRange(h);
  }

  lemma StillInRange(m: M.Metadata, n: nat)
    requires M.InRange(m) && n < TWO_32
    ensures M.InRange(m.(numberOfPages := n)) && M.PageSize(m.(numberOfPages := n)) == M.PageSize(m)
  {
  }

  lemma OwnPagePart(id: PageID, page: Page, pageSize: nat, bytes: Bytes, buf: Bytes)
    requires |bytes| == Room(id, pageSize) && MIN_PAGE <= pageSize && page.id == id
    requires if id == ROOT_SCHEMA_PAGE then |buf| >= |bytes| && |buf| == pageSize && buf[M.METADATA_LENGTH..] == bytes
      else buf == bytes
    ensures |buf| == pageSize && PagePart(id, buf) == bytes
    ensures PageIn(id, Some(buf)) == P.Decoded(bytes)
  {
  }

  lemma RootKept(block: Option<Bytes>, m: M.Metadata, crc: M.Checksum, data: Bytes)
    requires M.Is32Bit(crc) && M.InRange(m) && MIN_PAGE - M.METADATA_LENGTH <= |data|
    requires block.Some? ==> MIN_PAGE <= |block.value| && data == PagePart(ROOT_SCHEMA_PAGE, block.value)
    requires block.None? ==> data == Zeros(|data|)
    ensures var block' := Some(M.Encoded(m, crc) + data);
      && MetadataIn(block', crc) == Some(m)
      && PageIn(ROOT_SCHEMA_PAGE, block') == PageIn(ROOT_SCHEMA_PAGE, block)
  {
    hide M.Decoded, M.Encoded;
    M.MetadataRoundTrip(m, crc);
    var buf := M.Encoded(m, crc) + data;
    assert buf[..M.METADATA_LENGTH] == M.Encoded(m, crc) && buf[M.METADATA_LENGTH..] == data;
    if block.None? {
      BlankIsEmpty(data);
    }
  }

  /** A blank page region reads as an empty page. */
  lemma BlankIsEmpty(data: Bytes)
    requires P.HEADER_FIELDS <= |data| && data == Zeros(|data|)
    ensures P.Decoded(data) == P.EmptyPage
  {
    ZeroValue(data[0..4]);
  }

  lemma {:induction false} ZeroValue(b: Bytes)
    requires forall i :: 0 <= i < |b| ==> b[i] == 0
    ensures LEValue(b) == 0
  {
    if b != [] {
      ZeroValue(b[1..]);
    }
  }

  /* ---- the header across a checkpoint ---- */

  /** The same metadata, or the same damage, whatever the file version. */
  ghost predicate SameButVersion(m: Option<M.Metadata>, m': Option<M.Metadata>) {
    match m
    case None => m' == None
    case Some(x) => m'.Some? && m'.value == x.(fileVersion := m'.value.fileVersion)
  }

  /** A checkpoint that moves anything keeps the metadata of a transaction that
      had a block 0. One that had none, and so took the fresh defaults, keeps them
      exactly when the header main had of a torn block 0 says the same; with
      nothing of block 0 in main it is left with a header it cannot read. */
  lemma CheckpointKeepsMetadata(s: Store, gate: WalID, moved: seq<BlockID>, kept: seq<BlockID>, crc: M.Checksum,
                                w: WalID)
    requires Indexed(s) && Splits(s, gate, moved, kept) && M.Is32Bit(crc) && MIN_PAGE <= s.bs
    requires gate <= w && moved != []
    ensures var s' := Checkpointed(s, gate, moved, kept, crc);
      && Indexed(s') && HeaderFits(s, w) && HeaderFits(s', w)
      && (SameButVersion(MetadataIn(Read(s, 0, w), crc), MetadataIn(Read(s', 0, w), crc)) <==>
            Read(s, 0, w) != None || SameButVersion(Some(M.FRESH), MetadataIn(Some(Padded(s.main, s.bs, 0)), crc)))
      && (Read(s, 0, w) == None ==>
            && MetadataIn(Read(s, 0, w), crc) == Some(M.FRESH)
            && SameButVersion(MetadataIn(Some(Padded(s.main, s.bs, 0)), crc), MetadataIn(Read(s', 0, w), crc))
            && (!TornAt(s.main, s.bs, 0) ==> MetadataIn(Read(s', 0, w), crc) == None))
  {
    hide Moved, KeptWal, KeptSlots, Indexed, Splits, Read, TornAt, Bumped, Padded, M.Decoded;
    var s' := Checkpointed(s, gate, moved, kept, crc);
    CheckpointIndexed(s, gate, moved, kept, crc);
    CheckpointExact(s, gate, moved, kept, crc, 0, w);
    BlockRead(s, 0, w);
    BlockRead(s', 0, w);
    match Read(s, 0, w) {
      case None =>
        MovedPasses(s, gate, moved, kept, w);
        BumpedMetadata(Padded(s.main, s.bs, 0), crc);
        if !TornAt(s.main, s.bs, 0) {
          PaddedBlank(s.main, s.bs, 0);
          DamagedZeros(s.bs, crc);
        }
      case Some(buf) => BumpedMetadata(buf, crc);
    }
  }

  lemma MovedPasses(s: Store, gate: WalID, moved: seq<BlockID>, kept: seq<BlockID>, w: WalID)
    requires Indexed(s) && Splits(s, gate, moved, kept) && gate <= w && moved != [] && Read(s, 0, w) == None
    ensures Passes(moved, 0) && MainRead(s.main, s.bs, 0) == None && !(0 in s.index && gate <= s.index[0] < w)
  {
    hide MainRead, WalRead;
    var b := moved[0];
    SplitsListed(s, gate, moved, kept);
    assert b in moved;
    IndexedAt(s, b);
  }

  ghost predicate HeaderFits(s: Store, w: WalID)
    requires Indexed(s)
  {
    Read(s, 0, w).Some? ==> MIN_PAGE <= |Read(s, 0, w).value|
  }

  lemma DamagedZeros(n: nat, crc: M.Checksum)
    requires MIN_PAGE <= n
    ensures MetadataIn(Some(Zeros(n)), crc) == None
  {
    ZerosUnreadable(n, crc);
  }

  lemma BumpedMetadata(buf: Bytes, crc: M.Checksum)
    requires MIN_PAGE <= |buf| && M.Is32Bit(crc)
    ensures SameButVersion(MetadataIn(Some(buf), crc), MetadataIn(Some(Bumped(buf, crc)), crc))
    ensures SameButVersion(MetadataIn(Some(buf), crc), MetadataIn(Some(buf), crc))
  {
    hide M.Decoded, M.Encoded;
    var h := buf[..M.METADATA_LENGTH];
    if HeaderReadable(buf, crc) {
      M.VersionCountsUp(h, crc);
      assert Bumped(buf, crc)[..M.METADATA_LENGTH] == M.Encoded(M.NextVersion(M.Decoded(h, crc).value), crc);
    }
  }

  /** It does happen: block 1 is committed to a new database and checkpointed;
      the fresh metadata read before is a damaged header after. */
  lemma FirstCheckpointDamages(bs: nat, buf: Bytes, crc: M.Checksum)
    requires M.Is32Bit(crc) && MIN_PAGE <= bs == |buf|
    ensures var s := Put(Recovered(bs, [], [], 1, crc), [Block(1, buf)], crc);
      && Settled(s, crc) && CopiesAll(s, [1]) && Splits(s, s.maxID, [1], [])
      && var s' := Checkpointed(s, s.maxID, [1], [], crc);
         && HeaderFits(s, s.maxID) && MetadataIn(Read(s, 0, s.maxID), crc) == Some(M.FRESH)
         && Indexed(s') && HeaderFits(s', s'.maxID) && MetadataIn(Read(s', 0, s'.maxID), crc) == None
  {
    hide Settled, Moved, KeptWal, KeptSlots, MetadataIn, WithFrame, Recovered;
    var s0, blocks := Recovered(bs, [], [], 1, crc), [Block(1, buf)];
    NewSettled(bs, 1, crc);
    CommitSettled(s0, blocks, crc);
    PutSingle(s0, blocks[0], crc);
    var s := Put(s0, blocks, crc);
    SettledIndexed(s, crc);
    assert [1][0] == 1;
    CopiesAllSplits(s, [1]);
    NoFirstBlock(s, s.maxID);
    CheckpointKeepsMetadata(s, s.maxID, [1], [], crc, s.maxID);
  }

  lemma NoFirstBlock(s: Store, w: WalID)
    requires Indexed(s) && s.main == [] && 0 !in s.index
    ensures Read(s, 0, w) == None && !TornAt(s.main, s.bs, 0)
  {
  }

  /* ---- a database without a first block, and one with one ---- */

  lemma NoBlockIsFresh(crc: M.Checksum)
    ensures MetadataIn(None, crc) == Some(M.FRESH)
  {
  }

  /** A new database takes pages of the size of its blocks. */
  lemma NewSizesMatch(crc: M.Checksum)
    ensures MetadataIn(None, crc).Some? && Some(M.PageSize(MetadataIn(None, crc).value)) == DetectedSize([], crc)
  {
    M.FreshDefaults();
  }

  /** Block 0 has the header in its first 100 bytes and its page behind them; every
      other block is its page. */
  lemma PartsOfBlocks(id: PageID, buf: Bytes, crc: M.Checksum)
    requires MIN_PAGE <= |buf|
    ensures PageIn(id, Some(buf)) == P.Decoded(if id == 0 then buf[100..] else buf)
    ensures MetadataIn(Some(buf), crc).Some? <==> DetectedSize(buf, crc).Some?
    ensures MetadataIn(Some(buf), crc).Some? ==>
      Some(M.PageSize(MetadataIn(Some(buf), crc).value)) == DetectedSize(buf, crc)
  {
    hide P.Decoded, M.Decoded, M.PageSize;
  }
}

# dblock in Dafny

dblock is an embedded SQL database: B+ trees of rows and index entries over
slotted pages, the pages over a write-ahead log with snapshot reads, and a
small query engine on top. This project models those layers in Dafny and proves
what they promise, for every input and over whole runs.

Every operation that changes state is a method of a class with the original's
fields and branches, proved against a function or relation of the old state;
lemmas then prove what that function promises. Errors and panics are results.

| file | layer |
|---|---|
| `Bytes`, `Seqs`, `Options` | byte strings, key order and fixed-width integers; sequences; missing values |
| `Pages`, `TreeShape`, `TreeFacts`, `TreeRoom`, `BTree` | the order-4 B+ tree over a page map, its pending splits, when its pages have room, many trees on one pager |
| `Cursor`, `Tables` | range scans along the leaf chain; runs of insertions; full scans |
| `PageCodec`, `Metadata`, `StoragePager` | pages and the database header as bytes; pages over a transaction's blocks |
| `Files`, `WalLog`, `WalState` | byte files, log frames, and what a reader with a watermark sees |
| `Checkpoint`, `Snapshots`, `Recovery`, `PartialCheckpoint` | who notices a checkpoint, snapshots over runs, crashes and recovery over histories, checkpoints that keep frames |
| `Storage` | the storage engine's classes, proved against those state functions |
| `Survival`, `Durability` | the layers together: a tree in pages in blocks in a log that may be cut short |
| `Codec`, `Rows` | the row encoding and its decoder |
| `IndexKeys`, `Limits`, `Indexes`, `Engine` | index keys, bounds under which pages never fill up, indexes, and tables kept in agreement with them |
| `Resolver` | precedence climbing over flat expressions, and the printer |
| `Join`, `GroupKeys`, `Aggregate` | the join and grouping scanners |

The tree's invariant is flat: a ghost map gives every page its level and the
interval of key ranks it covers, and a page is right with respect to its own
interval and its children's. A split in progress is the same invariant with one
page excepted, and that page named. Keys are ranked by an order-preserving map
into the reals.

A log is read in slots of one frame each. A reader is a watermark; what it sees
of a block is a function of the two files and the index. Copying a block past
the end of the main file turns the gap into zeros, so an absent block and a
block of zeros compare as equal, but not for block 0, where one means fresh
metadata and the other a damaged header. Block 0 is compared without its file
version and checksum. A state is settled when the log's slots in use are whole commits, no valid
marked frame lies past them, and the log shadows a block torn at the end of
main. From settled states a crash may come after any byte of a commit's writes,
after any byte of a full checkpoint's, and at any point while a checkpoint that
keeps frames copies blocks.

A refused statement changes what it had written before the refusal: the driver
returns the error and leaves the transaction open (internal/driver.go:263-296),
so a later COMMIT keeps it. The engine's methods say what is left, and when the
unique indexes still agree with the table.

## Where the code does less than it seems to

Each of these is a theorem here, with the exact condition where there is one.

- A reader loses a block's version when another transaction commits the block
  and its only older version was in the log (`WalState.CommitSeenByReader`).
- A checkpoint that moves any frame turns an absent block 0 into zeros: who had
  none, and so fresh metadata, then has a damaged header
  (`Checkpointing.CheckpointUnseen`, `StoragePagers.CheckpointKeepsMetadata`,
  `StoragePagers.FirstCheckpointDamages`).
- A checkpoint that grows main over a block a crashed one had torn shows the
  torn bytes, padded with zeros, to a reader for whom the block was absent
  (`Checkpointing.CheckpointUnseen`, `Snapshots.StepUnseen`,
  `PartialCheckpoints.TornBlockShows`).
- The version bump rewrites main's header in place after the log was cut: torn
  past its eighth byte, the header fails its checksum and the database does not
  open (`Recovery.TornBumpOpens`, `Storage.Open`). Nor does a new database whose
  first checkpoint crashed after it had copied another block but not block 0
  (`Recovery.NewDatabaseOpens`).
- A log header torn past its commit marker commits whatever intact frame was
  left in its slot, under the new block's ID (`Recovery.CutCommitLog`,
  `Recovery.AllOrNothing`, `Recovery.TornHeaderCommitsStale`).
- After a partial checkpoint a crash loses kept frames that carry no commit
  marker (`PartialCheckpoints.PartialCheckpointReads`,
  `PartialCheckpoints.PartialCheckpointSure`,
  `PartialCheckpoints.PartialCheckpointLoses`), so the checkpoints of the crash
  histories keep none. A crash while the kept frames are rewritten from the log's
  start loses those that were written over before their turn
  (`PartialCheckpoints.CrashInRewrite`, `PartialCheckpoints.CrashInFrame`).
- An insertion whose leaf fits but whose separator does not fit into the parent
  is refused with the leaf already split: the keys of the right half cannot be
  found any more (`BTree.Tree.Insert`, `TreeRoom.RightHalfLost`).
- A row that a unique index refuses is in the table already: BEGIN, INSERT x,
  INSERT x (refused), COMMIT leaves two rows under one unique key
  (`Engine.IndexedTable.Insert`). An update stops at the first row that fails,
  with the rows before it rewritten and that row without its index entry
  (`Engine.IndexedTable.Update`), and it fails where a row's new key is held by a
  row it has not come to yet (`Engine.IncrementBlocked`). An index that could not
  be filled stays registered (`Engine.IndexedTable.CreateIndex`).
- After the leaf that would hold the highest key was emptied, the next row ID is
  1, whether or not row 1 exists (`BTree.Tree.InsertNext`, `Tables.EmptiedTail`),
  and a full scan of the table finds no rows (`Tables.FullScan`).
- A non-unique index keeps one row of those that share a key
  (`IndexKeys.AgreesInsert`); truth values and UUIDs are not part of index keys
  (`IndexKeys.KeysTellApart`); nulls can make keys collide
  (`IndexKeys.NullsCollide`, `IndexKeys.TextMeetsNull`), though not in an index on
  one column (`IndexKeys.NullStandsAlone`) nor where only the last column is null
  in one of the rows (`IndexKeys.FirstNullDecides`).
- Group keys are printed values: null and the text `<nil>`, a number and its
  digits, and texts with a zero byte fall into one group
  (`GroupKeys.GroupsRunTogether`, `GroupKeys.GroupsTellApart`).
- Pages above 65536 bytes are accepted but slot offsets and lengths are 16 bits
  wide (`PageCodec.Encode`, `PageCodec.LongPartsLost`).
- A left row whose very last pair fails to evaluate is never padded, if the
  caller goes on after the error (`Joins.PlanIsJoin`).
- MIN and MAX over mixed types pass over every value that is not of the first
  one's type (`Aggregates.ExtremeKeepsType`).
- Zone offsets are stored in whole minutes (`Rows.RowRoundTripExact`).

## Model

| member | source | states |
|---|---|---|
| `Bytes.CompareIsRank` | internal/page.go:261-263 | byte-lexicographic comparison is a total order: the sign of the comparison is the order of ranks, and it is zero only for equal keys |
| `Bytes.RankIsLexicographic` | internal/page.go:261-263 | one key comes before another exactly if the first byte that differs is smaller, or it is a beginning of the other |
| `Bytes.KeyRoundTrip` | internal/btree.go:444-457 | decoding an encoded row ID gives it back, for every 64-bit ID |
| `Bytes.KeyOfDecoded` | internal/btree.go:444-457 | every eight-byte key is the encoding of the ID it decodes to |
| `Bytes.KeyOrder` | internal/btree.go:444-457 | for IDs from 0 up, encoded keys compare as the IDs do and are equal only for equal IDs |
| `Bytes.HighestRank` | internal/btree.go:410-412 | no eight-byte key is above the probe LastKey searches for |
| `Bytes.LEDigit` | internal/codec/encoder.go:34-72 | byte i of a little-endian number is its digit worth 256^i |
| `Bytes.BEIsReversed` | internal/btree.go:444-457 | a big-endian number has the same digits in the other order |
| `TreeFacts.EmptyTree` | internal/btree.go:23-33 | a page that was never written is a well-formed empty tree |
| `TreeFacts.OtherTreeKept` | internal/btree.go:142-155 | an insertion into one tree leaves every other tree on the pager, made of other pages, well formed with the same contents |
| `TreeFacts.OneParentEach` | internal/btree.go:257-308 | in a well-formed tree every page but the root is listed by exactly one page, one level up; no page is shared |
| `TreeFacts.NodeSizes` | internal/btree.go:175-194 | a page has at most three keys and, if it is not a leaf, one child more than keys |
| `TreeFacts.PageCovering` | internal/btree.go:93-116 | at every level some page covers every key |
| `TreeFacts.HeightBound` | internal/btree.go:93-116 | a search path has as many steps as the tree has internal levels, and a tree never deleted from with h of them holds at least 2^(h+1) keys |
| `TreeFacts.ListingUnique` | internal/btree.go:337-356 | two ascending listings of the same entries are the same listing |
| `TreeRoom.OneWay` | internal/btree.go:93-116 | there is one leaf for a key and one path to it, so where an insertion needs room is determined |
| `TreeRoom.LeafHalvesFit` | internal/btree.go:196-255 | if an overfull leaf fits, so do its halves and the root page above them |
| `TreeRoom.InternalHalvesFit` | internal/btree.go:310-335 | if an overfull internal page fits, so do its halves and the root page above them |
| `TreeRoom.WithinHasRoom` | internal/page.go:121-145 | where no key is longer than k bytes and no value than v, with 64 + 4(k + v) and 92 + 4k bytes to a page beside the header, every insertion has room |
| `TreeRoom.RightHalfLost` | internal/btree.go:243-254 | after a split whose parent refused the separator no page of the tree lists the right half, so no search comes to its keys |
| `BTree.Tree.FindLeaf` | internal/btree.go:93-116 | reaches a leaf whose interval covers the key, by a path of child links from the root |
| `BTree.Tree.Search` | internal/btree.go:118-134 | finds a key exactly when the tree's map has it, with the mapped value |
| `BTree.Tree.Contains` | internal/btree.go:136-139 | whether the tree's map has the key |
| `BTree.Tree.Insert` | internal/btree.go:142-155 | accepted if and only if the covering leaf has room for the entry and every page above that a split climbs to has room for its separator; then yields a well-formed tree (equal leaf depth, separators bound their subtrees, at most 3 keys a node, leaves chained in order) whose map is the old one with key := value under the same root ID, however far splits climb; refused, it has changed nothing or left a split halfway; only own and fresh pages change |
| `BTree.Tree.InsertIntoLeaf` | internal/btree.go:175-194 | the covering leaf takes the entry in place or in order, exactly if it fits; the tree is well formed but for one key too many in that leaf |
| `BTree.Tree.SplitLeaf` | internal/btree.go:196-255 | splitting an overfull leaf restores the whole tree with the same map exactly if the pages above have room: both halves always do |
| `BTree.Tree.SplitRootLeaf` | internal/btree.go:209-240 | splitting a lone root leaf keeps the root's page ID and the map, and never runs out of room |
| `BTree.Tree.InsertIntoParent` | internal/btree.go:257-308 | from the pending-split state, telling the parent restores the whole tree with the same map exactly if the pages that are told have room; else the split stays pending |
| `BTree.Tree.RaiseRootPage` | internal/btree.go:258-281 | without a parent the left half moves to a fresh page and the root page becomes the parent of both, which never runs out of room |
| `BTree.Tree.SplitInternal` | internal/btree.go:310-335 | splitting an overfull internal page on the saved path restores the whole tree with the same map exactly if the pages above have room |
| `BTree.Tree.Delete` | internal/btree.go:359-378 | removes exactly one entry, or reports it missing and changes nothing; the tree stays well formed, possibly with an empty leaf |
| `BTree.Tree.All` | internal/btree.go:337-356 | lists, in ascending order and across empty leaves, every entry when there is no empty key, and in any case exactly those from the leaf that would hold {0} on |
| `BTree.Tree.FirstKey` | internal/btree.go:396-408 | the least key on a tree without emptied leaves and without the empty key; on row keys never above any key, whatever was emptied |
| `BTree.Tree.LastKey` | internal/btree.go:410-429 | on row keys the greatest key, unless the leaf that would hold the highest key is empty; then the key of row 0 |
| `BTree.Tree.NextIntegerKey` | internal/btree.go:431-442 | one more than the greatest row ID, but 1 when the last leaf is empty |
| `BTree.Tree.InsertNext` | internal/btree.go:157-167 | the new ID is above all others if and only if the table is empty or its last leaf was not emptied; the row is accepted if and only if the pages have room for it |
| `BTree.NextIsAbove` | internal/btree.go:431-442 | an ID chosen as NextIntegerKey chooses it is above all others if and only if the table is empty or its last leaf was not emptied |
| `BTree.DenseTailFilled` | internal/btree.go:196-255 | without deletes no leaf is empty, so the condition for fresh row IDs holds |
| `BTree.SearchAfter` | internal/btree.go:108-110 | the number of keys at or below the searched one |
| `BTree.SearchFrom` | internal/btree.go:125-127 | the number of keys below the searched one, and whether the next is it |
| `BTree.Pager.PutPage` | internal/pager.go:123-145 | a page that fits is stored, one that does not changes nothing |
| `BTree.Pager.NextID` | internal/pager.go:147-152 | a page ID above every page in use, so one no page has; StoragePagers.Begin gives the page map it starts from |
| `TreeShape.LeafTakes` | internal/btree.go:175-194 | putting an entry into its covering leaf keeps every other page right |
| `TreeShape.SplitPends` | internal/btree.go:196-255 | the state between writing the two halves and telling the parent: every page is right but the parent, which is right once told |
| `TreeShape.ParentTold` | internal/btree.go:283-307 | telling the parent ends the pending state, perhaps with one key too many in the parent |
| `TreeShape.RootRaised` | internal/btree.go:258-281 | moving the old root aside and putting a new one under its ID ends the pending state at the top |
| `TreeShape.RootLeafSplits` | internal/btree.go:209-240 | the three pages written for a lone root leaf form a well-formed tree |
| `Cursors.Cursor.Next` | internal/cursor.go:19-58 | yields the next entry of the range; over repeated calls exactly the entries from start to end, ascending, across emptied leaves, and then nothing ever again |
| `Tables.AppendRow` | internal/btree.go:157-167 | on a table of n rows that was never deleted from the new row gets ID n + 1 and overwrites nothing; it is accepted if and only if the pages have room |
| `Tables.FillTable` | internal/btree.go:157-167 | n insertions into an empty table get IDs 1..n and All returns the rows in insertion order; short rows are never refused |
| `Tables.FullScan` | internal/fullscanner.go:26-40 | a scan from the first to the last key visits every entry in order on a tree without emptied leaves; on a table it does so if and only if the table is empty or the leaf of the highest key was not emptied, and otherwise finds no rows |
| `Tables.EmptiedTail` | internal/btree.go:410-442 | a well-formed table with rows whose last leaf is empty: the next row ID there is 1, which a row has |
| `PageCodec.Decode` | internal/page.go:193-258 | reads header, slots and last child in order, with the first fault deciding the error |
| `PageCodec.DecodesExactly` | internal/page.go:193-258 | a buffer is a page if and only if it starts with LEAF or INTE and every slot, and what it points to, lies inside; it is an empty one if and only if it starts with zero |
| `PageCodec.DecodedFromBytes` | internal/page.go:193-258 | which bytes give the kind, the count, the next leaf and every key, value and child of a decoded page |
| `PageCodec.HoldsDecodes` | internal/page.go:193-258 | a buffer laid out for a page, in any arrangement of its data above the slot table, decodes to that page |
| `PageCodec.Encode` | internal/page.go:121-189 | refuses exactly the pages that do not fit; otherwise the buffer decodes to the page, ID aside, whenever its slot table and data meet inside the reach of 16-bit offsets |
| `PageCodec.PutSlot` | internal/page.go:74-84 | the slot's table entry, field by field, and nothing else |
| `PageCodec.SlotRead` | internal/page.go:86-98 | a written slot entry reads back as the slot |
| `PageCodec.LeafSlotLayout` | internal/page.go:49-84 | the eight bytes of a leaf slot: place and length of its key and of its value |
| `PageCodec.InternalSlotLayout` | internal/page.go:49-84 | the twelve bytes of an internal slot: place and length of its key, and its child; the last child has a slot without a key |
| `PageCodec.PutHeader` | internal/page.go:147-157 | the header fields read back as the page's |
| `PageCodec.FillStep` | internal/page.go:163-180 | one more entry written keeps the earlier ones: slot table and data never overlap, and data never overlaps data |
| `PageCodec.SmallPagesReach` | internal/page.go:143-145 | up to 65536 bytes every page that fits is in reach, so the round trip is unconditional there |
| `PageCodec.LongPartsLost` | internal/page.go:163-172 | on larger pages a key or value of 65536 bytes or more is accepted by the overflow check and lost: no buffer decodes to such a page |
| `Metadata.MetadataRoundTrip` | internal/metadata/metadata.go:62-149 | an encoded header decodes to its fields |
| `Metadata.HeaderLayout` | internal/metadata/metadata.go:11-21 | which of the hundred bytes keep what, the checksum being that of the ninety-six before it |
| `Metadata.ReadableExactly` | internal/metadata/metadata.go:78-149 | a header decodes if and only if it starts with dblock01 and its last four bytes are the checksum of its first 29 followed by zeros |
| `Metadata.VersionCountsUp` | internal/storage/storage.go:625-650 | the header written at a checkpoint decodes to the old fields with the file version counted up by one, modulo 2^32, and differs from the old one in version, padding and checksum only |
| `StoragePagers.Begin` | internal/pager.go:39-56 | a transaction that reads the committed state, its page size from the metadata, 8192 bytes without a first block, and its page IDs going on above every page it can find; fails exactly on damaged metadata |
| `StoragePagers.NewSizesMatch` | internal/pager.go:39-56 | a new database takes pages of the size of the blocks it is opened with |
| `StoragePagers.PartsOfBlocks` | internal/page.go:33-38 | block 0 has the header in its first hundred bytes and its page behind them, every other block is its page; the page size a transaction takes from block 0 is the block size an opening takes from it |
| `StoragePagers.StoragePager.GetPage` | internal/pager.go:65-81 | the page the transaction's block holds, own writes first, metadata split off page 0 |
| `StoragePagers.StoragePager.GetMetadata` | internal/pager.go:83-96 | block 0's metadata, fresh defaults when there is no block 0 |
| `StoragePagers.StoragePager.PutPage` | internal/pager.go:123-145 | afterwards the transaction reads exactly that page there, every other page and the metadata as before: its page map gains one entry; refused, changing nothing, exactly if the page does not fit or is the root page behind a damaged header |
| `StoragePagers.StoragePager.PutMetadata` | internal/pager.go:98-121 | afterwards the metadata is the given one with the page count set, and the root page and all others are as before |
| `StoragePagers.StoragePager.NextID` | internal/pager.go:147-152 | a page ID never handed out again; unless another transaction has gone past it no committed block has it and the transaction sees none there |
| `StoragePagers.UndamagedIsShown` | internal/pager.go:65-81 | the committed blocks are a page map if and only if no block is damaged |
| `StoragePagers.CheckpointKeepsMetadata` | internal/storage/storage.go:458-471 | a checkpoint that moves a frame keeps the metadata a transaction reads, file version aside, if and only if the transaction had a block 0 or the header main had of a torn one says the same as the fresh defaults; where nothing of it was torn, fresh defaults become a damaged header |
| `StoragePagers.FirstCheckpointDamages` | internal/storage/storage.go:458-612 | committing only block 1 to a new database and checkpointing does that |
| `Survival.SamePage` | internal/pager.go:65-81 | blocks that compare equal hold the same page, so what the storage engine may change no page shows |
| `Survival.EventPages` | internal/storage/storage.go:207-612 | after a commit, a checkpoint, or a crash in either and recovery, a page map stands in the blocks if it stood in what was achieved over the blocks before |
| `Survival.TreeSurvives` | internal/pager.go:123-160 | a transaction that took one well-formed tree to another is all or nothing: after its commit, or a crash anywhere inside it and recovery, the blocks hold the new tree or the old one, a torn header mistaken for another payload's aside; Durability.InsertAndCommit gives the two trees |
| `Survival.CommittedIsShown` | internal/pager.go:39-160 | after the commit of a transaction that was alone, and the checkpoint behind it, the next reader finds exactly the pages it had put |
| `Survival.RepresentedIsShown` | internal/pager.go:123-160 | the page map built up by putting pages is the one the commit's blocks show |
| `Durability.TreePagesEncodable` | internal/page.go:121-189 | the encoder takes every page of a well-formed tree |
| `Durability.PutPages` | internal/pager.go:123-145 | putting every page that is not as it was makes the transaction's page map the given one, and no put is refused |
| `Durability.InsertAndCommit` | internal/btree.go:142-155 | one entry from the tree to the log: with no other transaction open it is inserted if and only if the header is readable and the pages have room; then the next reader finds the well-formed tree of the old map with key := value, and the blocks committed are those of that tree; else nothing changes |
| `Codec.Encoder.PutAsUint16` | internal/codec/encoder.go:54-60 | appends the value, or fails above 32767 |
| `Codec.Encoder.PutAsUint32` | internal/codec/encoder.go:66-72 | appends the value, or fails above 2^31 - 1 |
| `Codec.Encoder.PutAsUint8` | internal/codec/encoder.go:46-52 | appends the value, or fails above 127 |
| `Codec.Encoder.PutBytesWithLength` | internal/codec/encoder.go:94-97 | appends length and bytes, or fails on bytes that are too long |
| `Codec.Decoder.GetBytes` | internal/codec/decoder.go:116-124 | takes the next n bytes, or fails in place when fewer remain |
| `Codec.Decoder.GetUint64` | internal/codec/decoder.go:74-81 | the next eight bytes as a little-endian number |
| `Codec.Decoder.GetBytesWithLength` | internal/codec/decoder.go:163-178 | reads a length and that many bytes, or fails when either is missing |
| `Rows.EncodeValue` | internal/row.go:28-62 | appends type tag and payload; fails exactly on texts and blobs that are too long |
| `Rows.ValueLayout` | internal/row.go:28-62 | the tag and the bytes of a stored value of every type |
| `Rows.Encode` | internal/row.go:16-26 | the stored form of the row; fails exactly where the original panics |
| `Rows.RowLayout` | internal/row.go:16-26 | a stored row is the number of its values in two bytes and then the values in order |
| `Rows.DecodeRow` | internal/row.go:64-157 | reads count and values in order, the first fault deciding the error |
| `Rows.ValueFromBytes` | internal/row.go:64-157 | which bytes are a value and which one; other tags, and too few bytes, are none |
| `Rows.TimeFromBytes` | internal/row.go:120-139 | which bytes are a time: its instant to the nanosecond and its zone in whole minutes |
| `Rows.ValueRoundTrip` | internal/row.go:28-157 | a stored value, whatever follows it, reads back as stored |
| `Rows.RowRoundTrip` | internal/row.go:16-157 | decoding an encoded row followed by any bytes gives the row, zone offsets cut to whole minutes |
| `Rows.RowRoundTripExact` | internal/row.go:51-56 | the row comes back unchanged if and only if every time is at a whole-minute offset that fits 16 bits |
| `Rows.MinutesCut` | internal/row.go:51-56 | a stored zone offset loses less than a minute, towards zero |
| `Rows.DecodedWellTyped` | internal/row.go:64-157 | whatever decodes is in the range of its type |
| `IndexKeys.EncodeMixedArray` | internal/index.go:116-139 | the key of some column values; fails exactly where the original panics |
| `IndexKeys.KeysTellApart` | internal/index.go:116-139 | rows of one type vector get the same key if and only if they agree in every column but truth values and UUIDs |
| `IndexKeys.KeysOfColumns` | internal/index.go:98-139 | two rows with values of the same types in the columns of an index get one key if and only if they agree in every one of those columns |
| `IndexKeys.ToldApart` | internal/index.go:116-139 | two values of one type agree for an index exactly if they are equal, but for truth values and UUIDs, which always do, and zone offsets below a minute |
| `IndexKeys.KeylessRows` | internal/index.go:98-139 | a row has a key if and only if it has all columns of the index, with values that can be stored, and there are at most 127 |
| `IndexKeys.NullsCollide` | internal/index.go:131-134 | with nulls in different columns two different rows can get one key |
| `IndexKeys.FirstNullDecides` | internal/index.go:116-139 | when the first column that differs in type is null in one row, the two rows share a key if and only if the columns before agree and the rest of the one behind the null byte is encoded as the rest of the other; so never if that column is the last, or the value there does not start with that byte |
| `IndexKeys.TextMeetsNull` | internal/index.go:124-134 | with a text column even rows with different numbers of nulls can get one key |
| `IndexKeys.NullStandsAlone` | internal/index.go:131-134 | in an index on one column no other value has the key of null |
| `IndexKeys.NullsBalance` | internal/index.go:116-139 | in an index on numbers two rows that share a key have equally many nulls |
| `IndexKeys.KeyOfRowStored` | internal/index.go:98-114 | a row has the same key before and after it was stored |
| `IndexKeys.KeyOfOtherColumn` | internal/index.go:211-213 | changing a column an index is not on keeps the row's key |
| `IndexKeys.AgreesInsert` | internal/index.go:141-167 | adding a row's entry keeps the index in agreement with the table if and only if no row had its key: a non-unique index overwrites |
| `IndexKeys.AgreesUpdate` | internal/index.go:215-246 | moving a row's entry keeps agreement if and only if no other row has the new key |
| `IndexKeys.AgreesUnmoved` | internal/engine.go:617-631 | leaving the entry of a replaced row as it is keeps agreement if and only if its key stays the same |
| `IndexKeys.NoSharedKeys` | internal/index.go:171-187 | under an agreeing index no two rows share a key |
| `Indexes.Index.ComputeKey` | internal/index.go:98-114 | the key of the row's indexed columns, or failure when a column is missing or cannot be encoded; KeysOfColumns says when two rows have one |
| `Indexes.Index.CheckUnique` | internal/index.go:171-187 | a unique index refuses exactly the keys it has |
| `Indexes.Index.Insert` | internal/index.go:141-167 | adds the entry key -> row ID, refusing duplicates of a unique index without any change, and otherwise exactly the entries that its pages have no room for |
| `Indexes.Index.Lookup` | internal/index.go:189-209 | finds the row ID stored under the row's key |
| `Indexes.Index.UpdateIndexEntry` | internal/index.go:215-246 | moves the entry from the old to the new key with its row ID; which of the four failures occurs is decided by the old contents; a refused new key leaves the row without an entry |
| `Engine.ForestGrows` | internal/engine.go:387-409 | an operation on one of many trees on a pager leaves the others as they were, still made of separate pages |
| `Engine.IndexedTable.Insert` | internal/engine.go:341-413 | on success the table has one more row under a fresh ID and every unique index agrees with it again; a row the pages have no room for is refused before, one that an index refuses stays in the table; success means no row had a key of it, refusal as a duplicate means some row had, and then two rows have it; agreement survives that exactly if no index from the refusing one on is unique |
| `Engine.SharesByColumns` | internal/engine.go:402-410 | a row shares a key with a row of the table if and only if it agrees with one in every column of the index |
| `Engine.DuplicateByColumns` | internal/index.go:141-187 | a unique index refuses a row as a duplicate if and only if some row of the table agrees with it in every column of the index |
| `Engine.IndexedTable.RefusalStands` | internal/engine.go:388-410 | a row that an index refused stays in the table, well formed, and what that does to the unique indexes |
| `Engine.IndexedTable.AppendRow` | internal/btree.go:157-167 | the appended row's ID was not in use |
| `Engine.IndexedTable.ReplaceRow` | internal/engine.go:605-631 | rewriting one row and moving its entries keeps every unique index in agreement; refused untouched exactly if it cannot be encoded or stored, or by an index with the row already rewritten |
| `Engine.IndexedTable.UnmovedStands` | internal/engine.go:621-631 | a row that an index refused to move stays rewritten; the unique indexes agree with the table if and only if the refusing index is not unique and every later unique index gives the row the key it had |
| `Engine.IndexedTable.Update` | internal/engine.go:533-637 | on success every matching row is rewritten as its old contents say, the others are untouched, the count is right, every unique index agrees after every single row, and no row's new key was held by another row of the table as it then was; otherwise it stops at the first row whose condition, value, encoding, room or index entry fails, with the rows before it updated and those behind it not, as a duplicate only if another row of the partly updated table holds the new key |
| `Engine.UpdateMeans` | internal/engine.go:580-634 | an update assigns the column of a row where its condition holds and nothing else, and leaves the row where it does not |
| `Engine.IndexedTable.UpdateNext` | internal/engine.go:580-634 | one turn of the loop keeps agreement and rewrites exactly its row, or stops there and says why |
| `Engine.IncrementBlocked` | internal/engine.go:580-634 | x := x + 1 over rows with x 1 and 2 under a unique index on x is refused at the first row, though no two rows of the finished table would share a key |
| `Engine.IndexedTable.CreateIndex` | internal/engine.go:893-967 | a unique index is built only if no two rows share a key, and then agrees with the table; refusal as a duplicate means two rows do; an index that failed to fill stays, and agreement survives exactly if it is not unique |
| `Engine.IndexedTable.BuildNext` | internal/engine.go:945-964 | indexing the next scanned row keeps the new index in agreement with the rows scanned so far, and the scan in place while the index tree grows |
| `Engine.Execute` | internal/engine.go:341-967 | over every run of insertions, updates and index creations, refused ones among them, every unique index is exactly the map from row keys to rows up to the first reply that breaks it (an index refused a row already written, and it or a later index is unique and misses that row) and not after it; with short values no page is ever full |
| `Engine.Ordinals` | internal/index.go:83-96 | every column name maps to its last column |
| `Engine.OrdinalsName` | internal/index.go:91-93 | a mapped name is the name of its column, and no later column has it |
| `Resolver.ExprMachine.ResolveExpr` | internal/resolveExpr.go:128-148 | accepts exactly the valid alternations of values and operators, and returns what the input means, placeholders numbered on from the shared counter; BindsByText says which operators bind first |
| `Resolver.ExprMachine.ParseExpr` | internal/resolveExpr.go:189-226 | reads an ordered tree from its position that only ends where no operator of the minimum precedence follows; fails only on inputs that do not alternate to their end |
| `Resolver.ExprMachine.ParsePrimary` | internal/resolveExpr.go:230-278 | accepts exactly the valid values and resolves them, nested parts with the shared placeholder counter |
| `Resolver.ExprMachine.ResolveFuncCall` | internal/resolveExpr.go:280-309 | accepts exactly supported functions with valid arguments |
| `Resolver.DenotedIsValid` | internal/resolveExpr.go:128-148 | only valid inputs mean anything |
| `Resolver.ReadingUnique` | internal/resolveExpr.go:189-226 | only one tree has the input's operators in order with left operands binding at least as tightly and right ones more tightly |
| `Resolver.BindsByText` | internal/resolveExpr.go:85-110 | between three values the operator whose text is of the higher of the five levels binds first, and of two on one level the left one; each is the operator its text names |
| `Resolver.OperatesByText` | internal/resolveExpr.go:93-186 | a token between two values makes an expression if and only if its text is one of fifteen, or it is a star, and then with the operator that text names |
| `Resolver.StandsForItself` | internal/resolveExpr.go:230-278 | what each kind of value means alone: a literal, column, star and placeholder itself, a parenthesis what is in it, an operator nothing |
| `Resolver.CallsInOrder` | internal/resolveExpr.go:280-309 | a call of one of the five functions means its name and its arguments in order, placeholders numbered on from one to the next; other names mean nothing |
| `Resolver.DenotesUnique` | internal/resolveExpr.go:128-148 | an input means at most one expression |
| `Resolver.DenotedNumbered` | internal/resolveExpr.go:269-272 | placeholders are numbered consecutively in reading order through every nested part |
| `Resolver.PrintedMeans` | internal/evalExpr.go:238-279 | an expression's printed form resolves to it if and only if its placeholders are numbered in reading order and its functions are supported |
| `Resolver.PrintResolves` | internal/evalExpr.go:238-279 | printing anything that was resolved and resolving it again gives the same expression and no other |
| `Joins.PlanIsJoin` | internal/joinscanner.go:87-167 | the planned outputs are, in order and once each, the matching pairs, the padded unmatched left rows and the padded unmatched right rows of the mode |
| `Joins.EmittedColumns` | internal/joinscanner.go:193-217 | every row of the join has the left columns and then the right ones, null exactly on the side that is padded, with the key of its left row |
| `Joins.PairsAreJoined` | internal/joinscanner.go:110-140 | two rows are joined if and only if ON is true of the left values followed by the right ones; null and false do not match, anything else fails |
| `Joins.LonelyArePadded` | internal/joinscanner.go:142-167 | a row is padded if and only if its side is asked for and it is in no pair, a left row whose last pair failed aside |
| `Joins.InOrder` | internal/joinscanner.go:87-167 | left rows in order, each with its pairs in the order of the right rows and its padding last, then the unmatched right rows |
| `Joins.JoinUnique` | internal/joinscanner.go:87-148 | no other sequence of outputs has the same members in the same order |
| `Joins.NewJoinScanner` | internal/joinscanner.go:32-81 | left and full joins pad left rows, right and full joins right rows; a join without an ON expression is refused |
| `Joins.JoinScanner.Next` | internal/joinscanner.go:87-148 | each call yields the first remaining output of the join and leaves the rest; at the end it stays ended; EmittedColumns says what the outputs are, column by column |
| `Joins.JoinScanner.LoadRightRows` | internal/joinscanner.go:169-191 | buffers the right side without changing what remains to be yielded, however often an empty one is asked again |
| `Joins.JoinScanner.ScanRight` | internal/joinscanner.go:110-140 | finds the current left row's next match or failure, or proves there is none |
| `Joins.JoinScanner.EmitUnmatchedRight` | internal/joinscanner.go:150-167 | yields the next right row that no left row matched |
| `Joins.PullAll` | internal/joinscanner.go:87-148 | pulling to the end gives the whole join; pulling to a failing pair gives exactly the outputs before it |
| `Aggregates.SumIsExact` | internal/accumulator.go:75-99 | a sum over integers is the exact sum modulo 2^64, nulls and other values passed over |
| `Aggregates.SumOfIntegers` | internal/accumulator.go:75-99 | SUM over whole numbers gives their sum modulo 2^64, and the float zero over no number |
| `Aggregates.SumWithFloat` | internal/accumulator.go:75-145 | one more value in a SUM: passed over if it is no number, added as an integer among integers, and as a float from the first float on |
| `Aggregates.ExtremeIs` | internal/accumulator.go:45-69 | MIN and MAX give a value that occurs and that no other goes beyond in the engine's order of values, null when there is none, for every strict order of floats, not-a-number included |
| `Aggregates.MinAndMax` | internal/accumulator.go:12-69 | over values of one type MIN is an occurring value before or level with all others in the order of that type, MAX one behind or level with all others; null over nulls only |
| `Aggregates.MinAndMaxOfIntegers` | internal/accumulator.go:12-69 | over whole numbers MIN is the least that occurs and MAX the greatest |
| `Aggregates.ComparesStrictly` | internal/orderscanner.go:117-192 | the order of values is antisymmetric and strictly transitive; across types it compares as equal |
| `Aggregates.ComparesInOrder` | internal/orderscanner.go:117-192 | which way values of each type compare; null is below all others, and values of two types compare as equal |
| `Aggregates.ExtremeKeepsType` | internal/accumulator.go:45-69 | over mixed types the extreme has the type of the first value that is not null |
| `Aggregates.AvgAndSumKinds` | internal/accumulator.go:75-125 | AVG divides by the number of numeric values; a sum is a float exactly when a float is among its values, and empty exactly when no number is |
| `Aggregates.AvgOf` | internal/accumulator.go:101-125 | AVG gives the numbers added up as floats in order, over how many they are, and null over none |
| `Aggregates.CountIsExact` | internal/accumulator.go:33-43 | a count is the number of values that are not null, modulo 2^64 |
| `Aggregates.CountOf` | internal/accumulator.go:33-43 | COUNT gives the number of values that are not null, modulo 2^64 |
| `Aggregates.FirstSeenIs` | internal/aggregatescanner.go:134-198 | group keys are listed once each, in first-seen order, and every row's key is among them |
| `Aggregates.RowsWithKey` | internal/aggregatescanner.go:134-198 | every row is in the group of its key as often as it occurs, and in no other |
| `Aggregates.GroupsPartition` | internal/aggregatescanner.go:134-198 | the groups' sizes add up to the number of rows |
| `Aggregates.CountsAddUp` | internal/aggregatescanner.go:219-227 | COUNT(*) over all groups adds up to the number of rows |
| `Aggregates.GroupYields` | internal/aggregatescanner.go:134-243 | a group has exactly rows of its key; its passed-through values are those of the first of them, and its results those of the functions over the arguments in row order |
| `GroupKeys.GroupKey` | internal/aggregatescanner.go:200-217 | the group values evaluated in order, printed and joined by zero bytes; fails where evaluating one does |
| `GroupKeys.GroupsTellApart` | internal/aggregatescanner.go:200-217 | rows whose group values have the same types, and are null, whole numbers, truth values or text without a zero byte, fall into one group if and only if the values are equal |
| `GroupKeys.GroupedByEvery` | internal/aggregatescanner.go:200-217 | two rows are in one group if and only if every group expression has the same value over both, where values print plainly; a row over which one fails has no group |
| `GroupKeys.JoinApart` | internal/aggregatescanner.go:216 | joined parts come apart again if none holds the separator |
| `GroupKeys.GroupsRunTogether` | internal/aggregatescanner.go:213-216 | otherwise different rows fall into one group: null and the text <nil>, 1 and the text 1, texts with a zero byte |
| `GroupKeys.DecimalIs` | internal/aggregatescanner.go:213 | whole numbers are printed in decimal |
| `Aggregates.AggregateScanner.BufferGroups` | internal/aggregatescanner.go:134-198 | groups of equal group keys stand in first-seen order, each accumulator being the fold over its group's rows in order and each passed-through column coming from the group's first row; an ungrouped empty input has one group; fails exactly if a group key, an argument, or a passed-through expression over the first row of a group has no value |
| `Aggregates.AggregateScanner.Accumulate` | internal/aggregatescanner.go:219-243 | every accumulator takes the row's value, so each is the fold over one row more |
| `Aggregates.AggregateScanner.Next` | internal/aggregatescanner.go:121-130 | yields the groups one by one, in projection order a function's result or a passed-through value, then the end |
| `Files.MemoryFile.ReadAt` | internal/storage/memoryFile.go:25-37 | the bytes at the offset, failing when any lies outside the file |
| `Files.MemoryFile.WriteAt` | internal/storage/memoryFile.go:39-51 | overwrites, growing the file and filling a gap with zeros |
| `Files.MemoryFile.Truncate` | internal/storage/memoryFile.go:53-65 | cuts or zero-extends the file |
| `Files.WrittenTwice` | internal/storage/memoryFile.go:39-51 | two adjacent writes are one |
| `WalLog.FrameWritten` | internal/storage/storage.go:427-446 | a written frame reads back with its block, marker and checksum, and every other frame is as before |
| `WalLog.FrameLayout` | internal/storage/storage.go:422-441 | frame j lies at j times the frame size: block ID, commit marker and payload checksum in eight bytes each, and the payload |
| `WalLog.StageWritten` | internal/storage/storage.go:434-439 | what each point from the end of a frame's header to the last byte of its payload leaves in its slot, every other frame as before |
| `WalLog.HeaderPartWritten` | internal/storage/storage.go:427-436 | what a header torn after any number of its bytes leaves in its slot: the old payload, the new ID and marker from the sixteenth byte on, and a checksum whose digits change one by one from the twenty-first; every other frame as before |
| `WalState.PutFramesRead` | internal/storage/storage.go:420-447 | after k frames of a commit exactly the named blocks have new versions, all at or above the old newest ID |
| `WalState.CommitSeenByReader` | internal/storage/storage.go:356-447 | a commit changes another reader's view of a block exactly where it rewrites a version the reader took from the log, and the reader then falls back to main |
| `WalState.CommitSeenAfter` | internal/storage/storage.go:400-456 | a reader opened after a commit sees exactly the commit over what was there |
| `WalState.PutBelow` | internal/storage/storage.go:441-445 | a commit keeps every block there is below the next block ID |
| `WalState.BlockPlace` | internal/storage/storage.go:373-390 | block b of main is its b-th piece of the block size, if main has all of it |
| `Snapshots.LostExactlyWhenClobbered` | internal/storage/storage.go:362-371 | a commit changes an active reader's block if and only if it clobbers it and main holds something else |
| `Snapshots.SnapshotKept` | internal/storage/storage.go:271-285 | over every run of opens, commits, rollbacks and checkpoints an active reader's block stays what it was unless a commit clobbers it, or a checkpoint fills in a block 0 the reader did not have or grows main over what a torn write had left of an absent block |
| `Snapshots.StepUnseen` | internal/storage/storage.go:356-612 | a step that does not clobber a reader's block leaves it alone if and only if it does not fill in an absent block 0 or grow main over what a torn write had left of an absent block |
| `Snapshots.UnloggedSpared` | internal/storage/storage.go:362-371 | a block that is not torn in main and has no version in the log below the reader's watermark, block 0 if the reader has one, is never clobbered, filled in or grown over |
| `Snapshots.SnapshotConstant` | internal/storage/storage.go:271-285 | a transaction opened while the log's index is empty reads, over every later run, the very bytes main held, block 0 included |
| `Checkpointing.CheckpointUnseen` | internal/storage/storage.go:509-612 | no checkpoint, partial or full, changes what any active or later transaction reads (block 0 apart from file version and checksum, other absent blocks possibly as zeros) if and only if the transaction had the block, or main did not grow over it, or it is not block 0 and main had nothing of it but zeros |
| `Checkpointing.CheckpointExact` | internal/storage/storage.go:509-612 | the raw bytes read after a checkpoint: absent blocks that main has grown over are what main had of them and zeros, block 0 in main has its version counted up, everything else is the same |
| `PartialCheckpoints.TornBlockShows` | internal/storage/storage.go:509-612 | a history from a new database with a crash in a checkpoint, after which a checkpoint beside a reader turns a block the reader found absent into torn bytes and zeros |
| `Checkpointing.CheckpointBelow` | internal/storage/storage.go:531-546 | a checkpoint keeps every block there is below the next block ID |
| `Checkpointing.KeptFrames` | internal/storage/storage.go:558-581 | the rewritten log has the kept frames, from its start, in the order they were kept |
| `Checkpointing.MovedSeen` | internal/storage/storage.go:531-546 | after copying, copied blocks read from main as they did from the log and the others as before |
| `Checkpointing.MovedRaw` | internal/storage/storage.go:531-546 | after copying, a block that was not copied is what it was, or what main had of it and zeros if main has grown over it |
| `Checkpointing.CopiedIfAllSeeIt` | internal/storage/storage.go:513-565 | a block is copied if and only if every active transaction reads its version from the log, and its frame kept if and only if some transaction is older |
| `Checkpointing.CountsAnew` | internal/storage/storage.go:592-612 | a checkpoint starts the count of commits anew if the header it leaves is readable, and leaves as many frames as it keeps |
| `Checkpointing.BumpUnseen` | internal/storage/storage.go:640-650 | counting up the file version changes no block but 0, and 0 only in version and checksum |
| `Checkpointing.BumpedByOne` | internal/storage/storage.go:625-650 | the version counts up by one, modulo 2^32; page size power, the other fields and all bytes behind the header stay |
| `Recovery.RecoveredReads` | internal/storage/storage.go:207-269 | recovery from a sound log reads as the engine before, whatever happened to main below blocks the log shadows, an absent block 0 filled in if frames were copied |
| `Recovery.OpenedSettled` | internal/storage/storage.go:155-269 | opening a sound log over a main whose torn block it shadows gives a settled engine |
| `Recovery.NewSettled` | internal/storage/storage.go:155-200 | a new database is settled |
| `Recovery.ReopenReads` | internal/storage/storage.go:155-269 | closing a settled engine's files at any moment and opening them again changes nothing that is read |
| `Recovery.CommitSettled` | internal/storage/storage.go:400-456 | commits keep the invariant that no valid marked frame lies past the log's end |
| `Recovery.CutCommitLog` | internal/storage/storage.go:420-447 | a commit cut short after any byte, inside a header included, leaves the log's invariant if and only if it neither got there whole nor had its last header torn past the marker over a frame whose payload matches the checksum then read |
| `Recovery.AllOrNothing` | internal/storage/storage.go:400-456 | after a crash inside a commit all blocks are read as with all of it or as with nothing of it if and only if the header was not mistaken for that of another payload, or that payload compares as the one being written or as what was there |
| `Recovery.CrashInCommit` | internal/storage/storage.go:207-269 | after a crash after any byte of a commit recovery reads as if exactly the blocks that landed had been committed: all, none, or all with a leftover payload as the last |
| `Recovery.CheckpointSettled` | internal/storage/storage.go:509-612 | a full checkpoint keeps the invariant and every block's contents, an absent block 0 filled in if it moved anything |
| `Recovery.CrashInCheckpoint` | internal/storage/storage.go:531-650 | a crash at any point of a checkpoint's copying, torn writes to main included, and in a full checkpoint up to the last byte of the version bump, leaves after recovery the contents the checkpoint would have |
| `Recovery.TornBumpOpens` | internal/storage/storage.go:625-650 | a header torn in the version bump is readable before its ninth byte and once whole; in between exactly if the checksums of different fields agree |
| `Recovery.HeaderAfterCopies` | internal/storage/storage.go:531-546 | after some copies main's header is the log's once block 0 was copied, and else what main had of it and zeros |
| `Recovery.SizeFromHeader` | internal/storage/storage.go:313-339 | the block size an opening takes doubles with every power in byte 16 of the header, from 1 for power 0; it is 8192 for power 13 and without a header |
| `Recovery.EncodedOpens` | internal/storage/storage.go:313-339 | a main file that begins with an intact header opens |
| `Recovery.NewDatabaseOpens` | internal/storage/storage.go:307-345 | after a crash in the first checkpoint of a new database it opens again if and only if nothing was copied yet or a readable header in block 0 was |
| `Recovery.EventReads` | internal/storage/storage.go:207-612 | each event of a history, crashes in a commit and anywhere in a checkpoint among them, keeps the invariant and changes the readable blocks only by the blocks that landed and a filled-in block 0 |
| `Recovery.HistoryReads` | internal/storage/storage.go:207-612 | over every history of commits, full checkpoints, crashes after any byte of either, and crashes while blocks are copied by any checkpoint, readable blocks equal a plain map with exactly the landed blocks applied, where the header still opens |
| `Recovery.TornHeaderCommitsStale` | internal/storage/storage.go:427-439 | a history from a new database, two crashed commits, after which a block reads as a payload that was never committed, since the checksum does not cover the header |
| `PartialCheckpoints.PartialCheckpointRecovers` | internal/storage/storage.go:558-581 | after a partial checkpoint and a crash recovery finds every kept frame, and so reads as before, if and only if the one written last carries a commit marker |
| `PartialCheckpoints.CrashInRewrite` | internal/storage/storage.go:558-581 | a crash between two frames of the rewriting: exactly the blocks whose kept frame was rewritten, or whose newest frame lies behind those rewritten so far, are read from the log, all others from main |
| `PartialCheckpoints.CrashInFrame` | internal/storage/storage.go:558-581 | a crash inside a frame of the rewriting that leaves its slot invalid: exactly the kept frames up to the last marked one before it are found |
| `PartialCheckpoints.PartialCheckpointReads` | internal/storage/storage.go:558-581 | exactly the kept blocks after the last marked frame fall back to main, every other block reads as before the crash |
| `PartialCheckpoints.EveryFrameRecovers` | internal/storage/storage.go:558-581 | all kept frames are found in every map order if and only if every one carries a commit marker |
| `PartialCheckpoints.PartialCheckpointSure` | internal/storage/storage.go:558-581 | reads survive a crash in every map order if and only if every kept frame carries a commit marker or main has its payload anyway |
| `PartialCheckpoints.PartialCheckpointLoses` | internal/storage/storage.go:558-581 | two blocks committed together beside an open reader, of which a checkpoint and a crash lose one |
| `Storage.WalStorage.constructor` | internal/storage/storage.go:155-200 | opening two files with a block size gives the recovered state, with the next block ID just above every block in main or log; files with a sound log give a settled engine |
| `Storage.Open` | internal/storage/storage.go:155-200 | opening two files takes the block size from main's header, 8192 bytes without one, and fails exactly if there is a header that cannot be decoded; SizeFromHeader says which size |
| `Storage.SettledFiles` | internal/storage/storage.go:155-269 | the files of a settled engine have a sound log, so they can be opened again |
| `Storage.WalStorage.Recover` | internal/storage/storage.go:207-269 | the index and offsets of every frame up to the last valid commit marker before the first invalid frame |
| `Storage.WalStorage.NewTxStorage` | internal/storage/storage.go:271-285 | a transaction with the current newest ID as watermark |
| `Storage.WalStorage.GetBlock` | internal/storage/storage.go:356-390 | the version in the log below the watermark, else main's block, else empty |
| `Storage.WalStorage.ReserveBlock` | internal/storage/storage.go:293-303 | the next block ID moves past the reserved one |
| `Storage.WalStorage.PutBlocks` | internal/storage/storage.go:400-456 | appends the blocks as one commit, only the last frame marked; refuses any wrong size without a change |
| `Storage.WalStorage.ShouldCheckpoint` | internal/storage/storage.go:493-504 | after more than 100 commits or more than 100 frames |
| `Storage.DueAfter` | internal/storage/storage.go:493-504 | after a checkpoint the next one is due with the 101st commit or the 101st frame, whichever comes first, and not before |
| `Storage.WalStorage.Gate` | internal/storage/storage.go:513-525 | the smallest watermark in use, or the newest ID |
| `Storage.WalStorage.Checkpoint` | internal/storage/storage.go:509-612 | moves exactly the blocks below the gate into main and keeps exactly the other frames, in whatever order the maps give; without one to move it does nothing; reports a damaged header after everything moved |
| `Storage.WalStorage.CopySafe` | internal/storage/storage.go:531-546 | exactly the given blocks are copied from the log to their places in main, in whatever order |
| `Storage.WalStorage.RewriteLog` | internal/storage/storage.go:553-592 | the log, its index and offsets describe exactly the kept frames |
| `Storage.WalStorage.BumpFileChangeCounter` | internal/storage/storage.go:640-650 | counts the version up in place, or reports a header it cannot decode |
| `Storage.TxStorage.GetBlock` | internal/storage/storage.go:32-40 | own writes first, otherwise the snapshot |
| `Storage.TxStorage.Commit` | internal/storage/storage.go:51-74 | refused unchanged when a block has the wrong size; otherwise the state is that of the listed blocks put and, when due, checkpointed; later readers see exactly the dirty blocks over the old contents, active readers lose exactly the clobbered versions, and a checkpoint behind the commit shows exactly where main has grown over an absent block; with no other transaction open it is the step the crash histories take |
| `Storage.TxStorage.Rollback` | internal/storage/storage.go:76-80 | drops the writes and the watermark and nothing else |
| `Storage.Transact` | internal/storage/storage.go:271-447 | one transaction alone from opening to commit: later readers see the last write of each block over what was there, and the engine survives every crash of the histories as before |
| `Storage.CommitIsSerial` | internal/storage/storage.go:51-74 | a commit and its checkpoint with no other transaction open are a commit and a full checkpoint of a crash history |
| `Storage.CommitPublished` | internal/storage/storage.go:51-63 | after a commit later readers see the dirty blocks over the old contents, and active readers fall back to main for exactly the blocks whose logged version they read |
| `Storage.StillPublished` | internal/storage/storage.go:65-69 | a checkpoint right after a commit takes none of it back; readers, torn blocks included, see a change exactly where main has grown over a block that was absent for them |

## Left out

- Storage.WalStorage.PutBlocks: the block size is fixed when the storage is opened; adopting the size of the first block of a brand-new database is not modelled.
- Storage.Open: committed frames are taken to name non-negative blocks, and the engine writes no others; the header's page size is at least the header's length.
- Metadata.PageSize: the page size doubles with every power without limit; the shift of the original wraps from power 63 on, and the engine writes no power that large.
- Storage.TxStorage.Commit: block IDs are non-negative 64-bit numbers.
- Storage.WalStorage.NextBlockID and ReserveBlock, and so StoragePagers.StoragePager.NextID: page IDs are fresh within one transaction; two open transactions can be given the same ones.
- BTree.Pager.PutPage: damaged metadata, which refuses page 0, is part of StoragePagers.StoragePager.PutPage only.
- Recovery.HistoryReads: checksums are assumed to tell a torn payload from the one being written, for the frames in play only; checkpoints that complete keep no frames, for the reason proved in PartialCheckpoints.PartialCheckpointSure; the reopened engine has the block size it had, so whether a header torn in the version bump opens at all is Recovery.TornBumpOpens.
- Durability.InsertAndCommit: the tree's operations run on BTree.Pager, and the pages they wrote are then put through StoragePagers.StoragePager, each once, where the source puts each as it is written; one entry per transaction; pages up to 65536 bytes.
- PageCodec.Encode: above 65536 bytes the round trip is proved where slot table and data meet inside the reach of 16-bit offsets, and disproved for parts of 65536 bytes or more; what happens between the two depends on the bytes that collide.
- StoragePagers.StoragePager.PutPage: pages are at least 256 bytes, the smallest page size the engine accepts; above 65536 bytes the stored page is promised where the encoder's round trip is.
- Engine.IndexedTable.Update: coercion of the new value is part of the expression; what pages without room leave of a row's tree is BTree.Tree.Insert's.
- Engine.Execute: a run ends at the first reply that breaks agreement or says that a page was full; statements that a client goes on to send after that are not followed.
- Engine.IndexedTable.CreateIndex: the row describing the index in the schema table is not written; that table is one more tree, which other trees' operations keep (Engine.ForestGrows).
- Engine.IndexedTable.Insert: binding of values to columns, defaults and coercion come before it.
- Resolver.ExprMachine.ResolveExpr: literals are opaque texts that are well formed or not; number and blob syntax is not modelled.
- Resolver.PrintedMeans: stated on the tokens of the printed text, not on its characters.
- Joins.JoinScanner.Next: errors of the joined scanners themselves are not modelled; the ON expression is an arbitrary function of the combined row.
- Joins.JoinScanner.LoadRightRows: an error of the right scanner, which ends the join, is not modelled.
- Aggregates.AggregateScanner.BufferGroups: accumulators are values inside their group rather than objects; floating-point addition and comparison are parameters, as is how floats, times, blobs and UUIDs are printed in a group key; errors of the base scanner are not modelled.
- BTree.Tree.Insert: errors other than a page that does not fit are not modelled.
- Disk files, locks, fsync and failing reads and writes; the mutex, which makes each storage call one step.
- SQL lexing and grammar, the database/sql driver, pragmas, ALTER and DROP, ORDER BY, filter and projection scanners.
- Conflicts between transactions that write the same block: the engine does not detect them.

/** A table with its indexes on one pager: inserting and updating rows, and
    building an index, keep every unique index in agreement with the table. */
module Engine {
  import opened Options
  import opened Bytes
  import opened Pages
  import opened TreeShape
  import opened TreeFacts
  import opened TreeRoom
  import opened BTree
  import C = Cursors
  import Tables
  import opened Codec
  import opened Rows
  import opened IndexKeys
  import opened Indexes
  import opened Limits

  /* ---- many trees on one pager ---- */

  /** Trees made of different pages. */
  ghost predicate Forest(pages: PageMap, next: PageID, shapes: seq<Shape>, roots: seq<PageID>) {
    && |shapes| == |roots|
    && (forall i :: 0 <= i < |shapes| ==> TreeOk(pages, shapes[i], roots[i], {}))
    && (forall i, p :: 0 <= i < |shapes| && p in shapes[i].nodes ==> 0 <= p < next)
    && (forall i, j :: 0 <= i < |shapes| && 0 <= j < |shapes| && i != j ==>
        shapes[i].nodes.Keys !! shapes[j].nodes.Keys)
  }

  /** Every page of a tree loads as before. */
  ghost predicate SameLoads(pages: PageMap, pages': PageMap, s: Shape) {
    forall p :: p in s.nodes ==> Load(pages', p) == Load(pages, p)
  }

  lemma OtherTreeLoads(pages: PageMap, s: Shape, next: PageID, pages': PageMap, s': Shape, next': PageID, other: Shape)
    requires Grown(pages, s, next, pages', s', next') && other.nodes.Keys !! s.nodes.Keys
    requires forall p :: p in other.nodes ==> p < next
    ensures SameLoads(pages, pages', other)
  {
    forall p | p in other.nodes
      ensures Load(pages', p) == Load(pages, p)
    {
      assert p in other.nodes.Keys && p !in s.nodes.Keys;
    }
  }

  /** An operation on one tree leaves a forest, with every other tree as it was. */
  lemma ForestGrows(pages: PageMap, next: PageID, shapes: seq<Shape>, roots: seq<PageID>, i: nat,
                    pages': PageMap, next': PageID, s': Shape)
    requires Forest(pages, next, shapes, roots) && i < |shapes|
    requires Grown(pages, shapes[i], next, pages', s', next')
    requires TreeOk(pages', s', roots[i], {}) && forall p :: p in s'.nodes ==> 0 <= p < next'
    ensures Forest(pages', next', shapes[i := s'], roots)
    ensures forall j :: 0 <= j < |shapes| && j != i && Dense(pages, shapes[j], roots[j]) ==>
      Dense(pages', shapes[j], roots[j])
    ensures forall j :: 0 <= j < |shapes| && j != i ==> SameLoads(pages, pages', shapes[j])
  {
    hide TreeOk, Grown, Dense;
    forall j | 0 <= j < |shapes| && j != i
      ensures TreeOk(pages', shapes[j], roots[j], {}) && shapes[j].nodes.Keys !! s'.nodes.Keys
      ensures Dense(pages, shapes[j], roots[j]) ==> Dense(pages', shapes[j], roots[j])
      ensures forall p :: p in shapes[j].nodes ==> 0 <= p < next'
      ensures SameLoads(pages, pages', shapes[j])
    {
      OtherTreeLoads(pages, shapes[i], next, pages', s', next', shapes[j]);
      OtherTreeKept(pages, shapes[i], next, pages', s', next', shapes[j], roots[j]);
    }
  }

  /* ---- what a table holds ---- */

  /** Every stored row decodes to the table's number of columns. */
  ghost predicate RowsFit(table: map<Bytes, Bytes>, width: nat) {
    forall k :: k in table ==> Decoded(table[k]).RowOk? && |Decoded(table[k]).row| == width
  }

  function OrdinalsOf(names: seq<string>): map<string, nat> {
    if names == [] then map[] else OrdinalsOf(names[..|names| - 1])[names[|names| - 1] := |names| - 1]
  }

  lemma {:induction false} OrdinalsName(names: seq<string>, name: string)
    ensures name in OrdinalsOf(names) <==> name in names
    ensures name in OrdinalsOf(names) ==> OrdinalsOf(names)[name] < |names| && names[OrdinalsOf(names)[name]] == name
    ensures forall j :: 0 <= j < |names| && names[j] == name ==>
      name in OrdinalsOf(names) && j <= OrdinalsOf(names)[name]
  {
    if names != [] {
      OrdinalsName(names[..|names| - 1], name);
      assert names == names[..|names| - 1] + [names[|names| - 1]];
    }
  }

  /** A row that was encoded has, stored, the key it was given. */
  lemma StoredKeyOfRow(c: Columns, row: Row)
    requires AllWellTyped(row) && Encodable(row)
    ensures Decoded(RowBytes(row)) == RowOk(RowAsStored(row))
    ensures StoredKey(c, RowBytes(row)) == KeyOf(c, row)
  {
    hide KeyOf, ReadValues;
    RowRoundTrip(row, []);
    assert RowBytes(row) + [] == RowBytes(row);
    KeyOfRowStored(c, row);
  }

  function TreesOf(tree: Tree, indexes: seq<Index>): (ts: seq<Tree>)
    ensures |ts| == |indexes| + 1 && ts[0] == tree
    ensures forall i :: 0 <= i < |indexes| ==> ts[i + 1] == indexes[i].idxTree
  {
    [tree] + seq(|indexes|, i requires 0 <= i < |indexes| => indexes[i].idxTree)
  }

  ghost function ShapesOf(ts: seq<Tree>): (shapes: seq<Shape>)
    reads ts
    ensures |shapes| == |ts| && forall i :: 0 <= i < |ts| ==> shapes[i] == ts[i].shape
  {
    seq(|ts|, i requires 0 <= i < |ts| reads ts => ts[i].shape)
  }

  ghost function RootsOf(ts: seq<Tree>): (roots: seq<PageID>)
    ensures |roots| == |ts| && forall i :: 0 <= i < |ts| ==> roots[i] == ts[i].rootID
  {
    seq(|ts|, i requires 0 <= i < |ts| => ts[i].rootID)
  }

  ghost predicate OnePager(ts: seq<Tree>, pager: Pager) {
    && (forall i :: 0 <= i < |ts| ==> ts[i].pager == pager)
    && (forall i, j :: 0 <= i < |ts| && 0 <= j < |ts| && i != j ==> ts[i] != ts[j])
  }

  /** Unique indexes lo up to hi agree with a table. */
  ghost predicate AgreeFrom(indexes: seq<Index>, shapes: seq<Shape>, table: map<Bytes, Bytes>, lo: nat, hi: nat) {
    && |shapes| == |indexes| + 1 && hi <= |indexes|
    && forall i :: lo <= i < hi && indexes[i].unique ==> Agrees(table, shapes[i + 1].contents, indexes[i].columns)
  }

  ghost predicate EntriesNameRows(shapes: seq<Shape>) {
    forall i :: 0 < i < |shapes| ==> NamesRows(shapes[i].contents)
  }

  ghost predicate OnColumns(indexes: seq<Index>, names: seq<string>) {
    forall i :: 0 <= i < |indexes| ==> indexes[i].columns.ordinals == OrdinalsOf(names)
  }

  /** No row of the table has this row's key in one of the first n unique indexes. */
  ghost predicate Unshared(indexes: seq<Index>, table: map<Bytes, Bytes>, row: Row, n: nat) {
    n <= |indexes| && forall i, k :: 0 <= i < n && indexes[i].unique && k in table ==>
      StoredKey(indexes[i].columns, table[k]) != KeyOf(indexes[i].columns, row)
  }

  ghost predicate SharesKey(c: Columns, table: map<Bytes, Bytes>, row: Row) {
    exists k :: k in table && StoredKey(c, table[k]).Some? && StoredKey(c, table[k]) == KeyOf(c, row)
  }

  /** No index from the i-th on is unique. */
  predicate NoUnique(indexes: seq<Index>, i: nat) {
    forall j :: i <= j < |indexes| ==> !indexes[j].unique
  }

  /** The encoder takes the row. */
  predicate Encodable(row: Row) {
    AllStorable(row) && |row| <= MAX_INT16
  }

  type Condition = Row -> Option<bool>
  type Expression = Row -> Option<Value>

  ghost predicate Computes(expr: Expression) {
    forall row :: expr(row).Some? ==> WellTyped(expr(row).value)
  }

  /** The row as an update statement leaves it; None where evaluating it fails
      or the encoder panics. */
  function UpdatedRow(where: Condition, expr: Expression, i: nat, row: Row): Option<Row> {
    if where(row) == Some(false) then Some(row)
    else if where(row) == Some(true) && i < |row| && expr(row).Some? then Some(row[i := expr(row).value])
    else None
  }

  ghost predicate Matches(where: Condition, stored: Bytes) {
    Decoded(stored).RowOk? && where(Decoded(stored).row) == Some(true)
  }

  /** A stored row as an update leaves it: rewritten if it matches and can be. */
  ghost function UpdatedBytes(where: Condition, expr: Expression, i: nat, stored: Bytes): Bytes {
    if Matches(where, stored) then
      var u := UpdatedRow(where, expr, i, Decoded(stored).row);
      if u.Some? && Encodable(u.value) then RowBytes(u.value) else stored
    else stored
  }

  /** A stored row after the update: rewritten if it matches, else untouched. */
  ghost predicate UpdatesTo(where: Condition, expr: Expression, i: nat, stored: Bytes, stored': Bytes) {
    && Decoded(stored).RowOk? && UpdatedRow(where, expr, i, Decoded(stored).row).Some?
    && (Matches(where, stored) ==> Encodable(UpdatedRow(where, expr, i, Decoded(stored).row).value))
    && stored' == UpdatedBytes(where, expr, i, stored)
  }

  /** The table when the update has just come past the row of this key: rows are
      updated in ascending order of their keys. */
  ghost function PartlyUpdated(where: Condition, expr: Expression, i: nat, table: map<Bytes, Bytes>,
                               key: Bytes): map<Bytes, Bytes> {
    map k | k in table :: if Rank(k) <= Rank(key) then UpdatedBytes(where, expr, i, table[k]) else table[k]
  }

  /** Another row has the key of this row. */
  ghost predicate OtherHolds(c: Columns, table: map<Bytes, Bytes>, key: Bytes) {
    key in table &&
    exists k :: k in table && k != key &&
      StoredKey(c, table[k]).Some? && StoredKey(c, table[k]) == StoredKey(c, table[key])
  }

  /** A row's new key is held by another row of the partly updated table. */
  ghost predicate Blocked(c: Columns, where: Condition, expr: Expression, i: nat, table: map<Bytes, Bytes>,
                          key: Bytes) {
    key in table && Matches(where, table[key]) && OtherHolds(c, PartlyUpdated(where, expr, i, table, key), key)
  }

  /** No unique index on the column blocks the row of this key. */
  ghost predicate Unblocked(indexes: seq<Index>, column: string, where: Condition, expr: Expression, i: nat,
                            table: map<Bytes, Bytes>, key: Bytes) {
    forall j :: 0 <= j < |indexes| && indexes[j].unique && column in indexes[j].columns.on ==>
                  !Blocked(indexes[j].columns, where, expr, i, table, key)
  }

  /** The first n keys' rows are updated, the others are as they were. */
  ghost predicate UpdatedUpTo(where: Condition, expr: Expression, i: nat, was: map<Bytes, Bytes>,
                              now: map<Bytes, Bytes>,
                              keys: seq<Bytes>, n: nat) {
    && n <= |keys| && now.Keys == was.Keys && (forall j :: 0 <= j < |keys| ==> keys[j] in was)
    && (forall j :: 0 <= j < n ==> UpdatesTo(where, expr, i, was[keys[j]], now[keys[j]]))
    && (forall j :: n <= j < |keys| ==> now[keys[j]] == was[keys[j]])
  }

  /** The keys among the first n whose rows match. */
  ghost predicate Matched(where: Condition, was: map<Bytes, Bytes>, keys: seq<Bytes>, n: nat, matched: set<Bytes>) {
    && n <= |keys| && (forall j :: 0 <= j < |keys| ==> keys[j] in was)
    && (forall k :: k in matched ==> k in keys[..n] && k in was && Matches(where, was[k]))
    && (forall j :: 0 <= j < n && Matches(where, was[keys[j]]) ==> keys[j] in matched)
  }

  /** The first column of a name, or the number of columns. */
  function FirstColumn(names: seq<string>, column: string): (i: nat)
    ensures i <= |names| && (i < |names| ==> names[i] == column) && forall j :: 0 <= j < i ==> names[j] != column
  {
    if names == [] || names[0] == column then 0 else 1 + FirstColumn(names[1..], column)
  }

  /** No row ID is above m. */
  ghost predicate UpToID(table: map<Bytes, Bytes>, m: int) {
    forall k :: k in table && |k| == 8 ==> DecodeKey(k) <= m
  }

  /** The rows of the listed keys. */
  ghost function PartOf(table: map<Bytes, Bytes>, keys: seq<Bytes>): map<Bytes, Bytes> {
    map k | k in table && k in keys :: table[k]
  }

  /** Two rows with one key. */
  ghost predicate HasTwins(c: Columns, table: map<Bytes, Bytes>) {
    exists j, k :: j in table && k in table && j != k &&
      StoredKey(c, table[j]).Some? && StoredKey(c, table[j]) == StoredKey(c, table[k])
  }

  /** All keys of a table in ascending order. */
  ghost predicate ListsKeys(keys: seq<Bytes>, table: map<Bytes, Bytes>) {
    Sorted(keys) && forall k :: k in table <==> k in keys
  }

  /** Why an update stopped at a row; a row that was not moved in an index is
      already rewritten. */
  datatype Refusal =
    | NotBoolean
    | NoValue
    | CannotEncode
    | NoRoom
    | NotMoved(index: nat, entry: IndexResult, original: Row, updated: Row)

  predicate IsFull(why: Refusal) {
    why.NoRoom? || (why.NotMoved? && why.entry.PageFull?)
  }

  datatype UpdateResult = Updated | NoSuchColumn | Stopped(key: Bytes, why: Refusal)

  /** What the row at which an update stops is like. */
  ghost predicate Reason(where: Condition, expr: Expression, i: nat, stored: Bytes, why: Refusal) {
    Decoded(stored).RowOk? &&
    var row := Decoded(stored).row;
    if why.NotBoolean? then where(row) == None
    else
      && where(row) == Some(true)
      && if why.NoValue? then expr(row) == None
         else
           && i < |row| && expr(row).Some?
           && (why.CannotEncode? <==> !Encodable(row[i := expr(row).value]))
           && (why.NotMoved? ==> why.original == row && why.updated == row[i := expr(row).value])
  }

  /** A row that index j did not move leaves every unique index in agreement. */
  predicate Harmless(indexes: seq<Index>, j: nat, original: Row, updated: Row) {
    && j < |indexes| && !indexes[j].unique
    && (forall h :: j < h < |indexes| && indexes[h].unique ==>
                      KeyOf(indexes[h].columns, original) == KeyOf(indexes[h].columns, updated))
  }

  ghost predicate ColumnsWithin(indexes: seq<Index>, c: nat) {
    forall i :: 0 <= i < |indexes| ==> |indexes[i].columns.on| <= c
  }

  ghost predicate YieldsWithin(expr: Expression, u: nat) {
    forall row :: expr(row).Some? ==> |ValueBytes(expr(row).value)| <= u
  }

  /** Pages that were ample for the row are ample still, and none was full. */
  ghost predicate Keeps(pages: PageMap, pages': PageMap, pageSize: nat, w: nat, indexes: seq<Index>, row: Row,
                        full: bool) {
    forall u: nat, c: nat :: Ample(pages, pageSize, w, u, c) && ColumnsWithin(indexes, c) && ValuesWithin(row, u) ==>
                               Ample(pages', pageSize, w, u, c) && !full
  }

  /** The same for all rows of the table and the values of the expression. */
  ghost predicate KeepsAll(pages: PageMap, pages': PageMap, pageSize: nat, w: nat, indexes: seq<Index>,
                           table: map<Bytes, Bytes>, expr: Expression, full: bool) {
    forall u: nat, c: nat ::
      Ample(pages, pageSize, w, u, c) && ColumnsWithin(indexes, c) && RowsWithin(table, u) && YieldsWithin(expr, u) ==>
        Ample(pages', pageSize, w, u, c) && !full
  }

  /** The same for an index on these columns of the table's rows. */
  ghost predicate KeepsIndexing(pages: PageMap, pages': PageMap, pageSize: nat, w: nat, on: seq<string>,
                                table: map<Bytes, Bytes>, full: bool) {
    forall u: nat, c: nat ::
      Ample(pages, pageSize, w, u, c) && |on| <= c && RowsWithin(table, u) ==>
        Ample(pages', pageSize, w, u, c) && !full
  }

  datatype BuildResult = Built | NoColumn | Failed(why: IndexResult)

  datatype InsertResult = Inserted | Unstorable | NotIndexed(index: nat, why: IndexResult) | TableFull

  class IndexedTable {
    const pager: Pager
    const tree: Tree
    const columnNames: seq<string>
    var indexes: seq<Index>

    constructor (pager: Pager, tree: Tree, columnNames: seq<string>, indexes: seq<Index>)
      ensures this.pager == pager && this.tree == tree && this.columnNames == columnNames && this.indexes == indexes
    {
      this.pager, this.tree, this.columnNames, this.indexes := pager, tree, columnNames, indexes;
    }

    ghost function Trees(): seq<Tree>
      reads this`indexes
    {
      TreesOf(tree, indexes)
    }

    ghost function Shapes(): seq<Shape>
      reads this`indexes, Trees()
    {
      ShapesOf(Trees())
    }

    ghost function Table(): map<Bytes, Bytes>
      reads tree
    {
      tree.shape.contents
    }

    /** The trees are apart and in order. */
    ghost predicate Linked()
      reads this`indexes, Trees(), pager
    {
      OnePager(Trees(), pager) && pager.Tidy() && Forest(pager.pages, pager.nextID, Shapes(), RootsOf(Trees()))
    }

    ghost predicate IndexesFit()
      reads this`indexes, Trees()
    {
      EntriesNameRows(Shapes()) && OnColumns(indexes, columnNames)
    }

    /** Rows are never deleted, so their tree is dense. */
    ghost predicate Valid()
      reads this`indexes, Trees(), tree, pager
    {
      && Linked() && IndexesFit()
      && Dense(pager.pages, tree.shape, tree.rootID)
      && RowKeys(Table()) && RowsFit(Table(), |columnNames|)
    }

    /** Every unique index agrees with the table. */
    ghost predicate UniqueAgree()
      reads this`indexes, Trees(), tree
    {
      AgreeFrom(indexes, Shapes(), Table(), 0, |indexes|)
    }

    /** Every page has room for whatever rows and keys values of at most u bytes,
        on at most c columns, can make. */
    ghost predicate Spacious(u: nat, c: nat)
      reads this`indexes, tree, pager
    {
      && Ample(pager.pages, pager.pageSize, |columnNames|, u, c)
      && ColumnsWithin(indexes, c) && RowsWithin(Table(), u)
    }

    lemma IndexStands(i: nat)
      requires Linked() && i < |indexes|
      ensures indexes[i].idxTree.Valid() && indexes[i].idxTree.pager == pager && indexes[i].idxTree != tree
      ensures Shapes()[i + 1] == indexes[i].idxTree.shape && RootsOf(Trees())[i + 1] == indexes[i].idxTree.rootID
      ensures Shapes()[0] == tree.shape && RootsOf(Trees())[0] == tree.rootID
      ensures forall j :: 0 <= j < |Trees()| && j != i + 1 ==> Trees()[j] != indexes[i].idxTree
    {
      hide TreeOk, Forest, Pager.Tidy;
      ForestTree(pager.pages, pager.nextID, Shapes(), RootsOf(Trees()), i + 1);
      assert Trees()[i + 1] == indexes[i].idxTree && Trees()[0] == tree;
    }

    /** Inserts one entry into index i; the other trees stay as they are. */
    method IndexRow(i: nat, id: int, row: Row) returns (r: IndexResult)
      requires Linked() && i < |indexes| && AllWellTyped(row)
      modifies indexes[i].idxTree, pager
      ensures !r.PageFull? ==> Linked()
      ensures Shapes() == old(Shapes())[i + 1 := indexes[i].idxTree.shape]
      ensures Adds(indexes[i].columns, indexes[i].unique, old(indexes[i].idxTree.shape.contents), id, row, r,
                   indexes[i].idxTree.shape.contents)
      ensures old(Dense(pager.pages, tree.shape, tree.rootID)) && !r.PageFull? ==>
        Dense(pager.pages, tree.shape, tree.rootID)
      ensures !r.PageFull? ==> SameLoads(old(pager.pages), pager.pages, tree.shape)
      ensures StaysWithin(old(pager.pages), pager.pages, KeyBytes(indexes[i].columns, row), EncodeKey(0))
      ensures r.PageFull? ==> Cramped(old(pager.pages), pager.pageSize, KeyBytes(indexes[i].columns, row), EncodeKey(0))
    {
      hide TreeOk, Forest, Grown, Dense, Adds, Pager.Tidy;
      hide SameLoads, HasRoom, StaysWithin, Cramped, KeyBytes, EncodeKey;
      hide OnePager, AllWellTyped, KeyOf, RootsOf, ShapesOf, TreesOf;
      ghost var ts, shapes, roots := Trees(), Shapes(), RootsOf(Trees());
      ghost var pages, next := pager.pages, pager.nextID;
      IndexStands(i);
      r := indexes[i].Insert(id, row);
      assert ts == Trees() && Shapes() == shapes[i + 1 := indexes[i].idxTree.shape];
      if !r.PageFull? {
        ForestGrows(pages, next, shapes, roots, i + 1, pager.pages, pager.nextID, indexes[i].idxTree.shape);
      }
    }

    /** Moves one entry of index i. */
    method MoveEntry(i: nat, original: Row, updated: Row) returns (r: IndexResult)
      requires Linked() && i < |indexes| && AllWellTyped(original) && AllWellTyped(updated)
      requires NamesRows(indexes[i].idxTree.shape.contents)
      modifies indexes[i].idxTree, pager
      ensures !r.PageFull? ==> Linked()
      ensures Shapes() == old(Shapes())[i + 1 := indexes[i].idxTree.shape]
      ensures Moves(indexes[i].columns, indexes[i].unique, old(indexes[i].idxTree.shape.contents), original, updated, r,
                    indexes[i].idxTree.shape.contents)
      ensures old(Dense(pager.pages, tree.shape, tree.rootID)) && !r.PageFull? ==>
        Dense(pager.pages, tree.shape, tree.rootID)
      ensures StaysWithin(old(pager.pages), pager.pages, KeyBytes(indexes[i].columns, updated), EncodeKey(0))
      ensures r.PageFull? ==>
        Cramped(old(pager.pages), pager.pageSize, KeyBytes(indexes[i].columns, updated), EncodeKey(0))
    {
      hide RootsOf, ShapesOf, TreesOf;
      hide TreeOk, Forest, Grown, Dense, Moves, NamesRows, Pager.Tidy, StaysWithin, Cramped, KeyBytes, EncodeKey;
      hide OnePager, AllWellTyped, KeyOf;
      ghost var shapes, roots := Shapes(), RootsOf(Trees());
      ghost var pages, next := pager.pages, pager.nextID;
      IndexStands(i);
      r := indexes[i].UpdateIndexEntry(original, updated);
      assert Shapes() == shapes[i + 1 := indexes[i].idxTree.shape];
      if !r.PageFull? {
        ForestGrows(pages, next, shapes, roots, i + 1, pager.pages, pager.nextID, indexes[i].idxTree.shape);
      }
    }

    /** Stores a row under an existing or a new key; the indexes stay as they are. */
    method PutRow(key: Bytes, stored: Bytes) returns (saved: bool)
      requires Linked() && Dense(pager.pages, tree.shape, tree.rootID)
      modifies tree, pager
      ensures saved <==> old(HasRoom(pager.pages, tree.shape, tree.rootID, key, stored, pager.pageSize))
      ensures !saved ==> Cramped(old(pager.pages), pager.pageSize, key, stored)
      ensures StaysWithin(old(pager.pages), pager.pages, key, stored)
      ensures saved ==>
        Linked() && Dense(pager.pages, tree.shape, tree.rootID) && Table() == old(Table())[key := stored]
      ensures Shapes() == old(Shapes())[0 := tree.shape]
    {
      hide RootsOf, ShapesOf, TreesOf;
      hide TreeOk, Forest, Grown, Dense, Pager.Tidy, HasRoom, HalfSplit, StaysWithin, Cramped;
      ghost var s0 := tree.shape;
      ghost var shapes, roots := Shapes(), RootsOf(Trees());
      ghost var pages, next := pager.pages, pager.nextID;
      ForestTree(pages, next, shapes, roots, 0);
      saved := tree.Insert(key, stored);
      assert Shapes() == shapes[0 := tree.shape];
      if saved {
        ForestGrows(pages, next, shapes, roots, 0, pager.pages, pager.nextID, tree.shape);
      } else {
        NoRoomIsCramped(pages, s0, tree.rootID, key, stored, pager.pageSize);
      }
    }

    /** Stores a row under the next row ID, which no row had. */
    method AppendRow(stored: Bytes) returns (rowID: int, saved: bool)
      requires Linked() && Dense(pager.pages, tree.shape, tree.rootID)
      requires RowKeys(Table()) && EncodeKey(TWO_63 - 1) !in Table()
      modifies tree, pager
      ensures 1 <= rowID < TWO_63 && EncodeKey(rowID) !in old(Table())
      ensures forall m :: 0 <= m && UpToID(old(Table()), m) ==> rowID <= m + 1
      ensures saved <==> old(HasRoom(pager.pages, tree.shape, tree.rootID, EncodeKey(rowID), stored, pager.pageSize))
      ensures !saved ==> Cramped(old(pager.pages), pager.pageSize, EncodeKey(rowID), stored)
      ensures StaysWithin(old(pager.pages), pager.pages, EncodeKey(rowID), stored)
      ensures saved ==> Linked() && Dense(pager.pages, tree.shape, tree.rootID) &&
                        Table() == old(Table())[EncodeKey(rowID) := stored]
      ensures Shapes() == old(Shapes())[0 := tree.shape]
    {
      hide RootsOf, ShapesOf, TreesOf;
      hide TreeOk, Forest, Grown, Dense, EncodeKey, DecodeKey, Pager.Tidy, ProbeLeafEmpty, TailFilled, Rank;
      hide RowKeys, UpToID, IsGreatest, AboveAll, NamesRows;
      hide AgreeFrom, OnColumns, EntriesNameRows, HasRoom, StaysWithin, Cramped;
      RowKeysLong(Table());
      ghost var shapes, roots := Shapes(), RootsOf(Trees());
      ghost var pages, next := pager.pages, pager.nextID;
      ForestTree(pages, next, shapes, roots, 0);
      if Table() != map[] {
        DenseTailFilled(pages, tree.shape, tree.rootID);
      }
      ghost var table, s := Table(), tree.shape;
      rowID, saved := tree.InsertNext(stored);
      FreshRowID(pages, s, tree.rootID, rowID);
      assert Shapes() == shapes[0 := tree.shape];
      if saved {
        ForestGrows(pages, next, shapes, roots, 0, pager.pages, pager.nextID, tree.shape);
      } else {
        NoRoomIsCramped(pages, s, tree.rootID, EncodeKey(rowID), stored, pager.pageSize);
      }
    }

    /** Index i has refused a row that is in the table by now. */
    ghost predicate Refused(i: nat, why: IndexResult, table: map<Bytes, Bytes>, row: Row)
      reads this`indexes, Trees(), tree, pager
    {
      && i < |indexes| && !why.Indexed? && !why.NotFound?
      && (!why.PageFull? ==> Valid() && (UniqueAgree() <==> NoUnique(indexes, i)))
      && (why.Duplicate? ==>
            && indexes[i].unique && SharesKey(indexes[i].columns, table, row) && HasTwins(indexes[i].columns, Table()))
    }

    /** Inserts a row into the table and into every index. On success every
        unique index agrees with the table again; a unique index refuses the row
        exactly when some row already has its key. The row is written first and
        stays when an index refuses it: then two rows share a key, and the unique
        indexes from the refusing one on disagree with the table. */
    method Insert(row: Row) returns (rowID: int, rowsAffected: nat, r: InsertResult)
      requires Valid() && UniqueAgree()
      requires AllWellTyped(row) && |row| == |columnNames| && EncodeKey(TWO_63 - 1) !in Table()
      modifies Trees(), pager
      ensures r.Unstorable? <==> !Encodable(row)
      ensures r.Unstorable? ==> Valid() && UniqueAgree() && Shapes() == old(Shapes())
      ensures r.TableFull? <==>
                && Encodable(row)
                && !old(HasRoom(pager.pages, tree.shape, tree.rootID, EncodeKey(rowID), RowBytes(row), pager.pageSize))
      ensures r.Inserted? ==> Valid() && UniqueAgree() && rowsAffected == 1 + |indexes|
      ensures r.Inserted? ==> Unshared(indexes, old(Table()), row, |indexes|)
      ensures r.Inserted? || r.NotIndexed? ==>
                && Table() == old(Table())[EncodeKey(rowID) := RowBytes(row)] && EncodeKey(rowID) !in old(Table())
                && 1 <= rowID < TWO_63 && (forall m :: 0 <= m && UpToID(old(Table()), m) ==> rowID <= m + 1)
      ensures r.NotIndexed? ==> Refused(r.index, r.why, old(Table()), row)
      ensures Keeps(old(pager.pages), pager.pages, pager.pageSize, |columnNames|, indexes, row, OutOfRoom(Inserting(r)))
    {
      hide TreeOk, Forest, Dense, KeyOf, EncodeKey, Pager.Tidy;
      hide AgreeFrom, Decoded, Unshared, NamesRows, RowKeys, RowsFit, UpToID;
      hide HasRoom, SharesKey, HasTwins, NoUnique, RowBytes, AllStorable, Refused, Keeps, StaysWithin, Cramped;
      ghost var table, shapes0, pages0 := Table(), Shapes(), pager.pages;
      KeepsSame(pages0, pager.pageSize, |columnNames|, indexes, row);
      rowID, rowsAffected := 0, 0;
      var encodedRow, ok := Encode(row);
      if !ok {
        return rowID, rowsAffected, Unstorable;
      }
      var saved;
      rowID, saved := AppendRow(encodedRow);
      RowKeeps(pages0, pager.pages, pager.pageSize, indexes, EncodeKey(rowID), row, !saved);
      if !saved {
        return rowID, rowsAffected, TableFull;
      }
      ghost var pages1 := pager.pages;
      RowAppended(table, rowID, row, |columnNames|);
      StartsAgreeing(indexes, shapes0, Shapes(), table, Table(), row);
      rowsAffected, r := IndexAll(rowID, row, table);
      KeepsTrans(pages0, pages1, pager.pages, pager.pageSize, |columnNames|, indexes, row, OutOfRoom(Inserting(r)));
      if r.NotIndexed? {
        RefusalStands(r.index, r.why, table, rowID, row);
      }
    }

    lemma RefusalStands(i: nat, why: IndexResult, table: map<Bytes, Bytes>, rowID: int, row: Row)
      requires i < |indexes| && !why.Indexed? && !why.NotFound? && AllWellTyped(row) && Encodable(row)
      requires Table() == table[EncodeKey(rowID) := RowBytes(row)] && EncodeKey(rowID) !in table
      requires RowKeys(Table()) && RowsFit(Table(), |columnNames|)
      requires !why.PageFull? ==> Indexing(table, rowID, row, i)
      requires why.Duplicate? ==> indexes[i].unique && SharesKey(indexes[i].columns, table, row)
      ensures Refused(i, why, table, row)
    {
      hide TreeOk, Forest, Dense, KeyOf, EncodeKey, Pager.Tidy;
      hide AgreeFrom, Decoded, Unshared, NamesRows, RowKeys, RowsFit;
      hide SharesKey, HasTwins, NoUnique, RowBytes, AllStorable, OnePager, Linked, IndexesFit;
      if !why.PageFull? {
        AppendedAgreement(indexes, Shapes(), table, EncodeKey(rowID), RowBytes(row), i);
      }
      if why.Duplicate? {
        SharedIsTwin(indexes[i].columns, table, EncodeKey(rowID), row);
      }
    }

    /** A new row is in the table and in the first n indexes; the others still
        agree with the table as it was. */
    ghost predicate Indexing(table: map<Bytes, Bytes>, rowID: int, row: Row, n: nat)
      reads this`indexes, Trees(), tree, pager
    {
      && Linked() && IndexesFit() && Dense(pager.pages, tree.shape, tree.rootID)
      && Table() == table[EncodeKey(rowID) := RowBytes(row)] && EncodeKey(rowID) !in table && n <= |indexes|
      && AllWellTyped(row) && Encodable(row)
      && AgreeFrom(indexes, Shapes(), Table(), 0, n) && AgreeFrom(indexes, Shapes(), table, n, |indexes|)
      && Unshared(indexes, table, row, n)
    }

    method IndexNext(i: nat, rowID: int, row: Row, ghost table: map<Bytes, Bytes>) returns (why: IndexResult)
      requires i < |indexes| && Indexing(table, rowID, row, i)
      modifies indexes[i].idxTree, pager
      ensures Table() == old(Table()) && !why.NotFound?
      ensures why.Indexed? ==> Indexing(table, rowID, row, i + 1)
      ensures !why.Indexed? && !why.PageFull? ==> Indexing(table, rowID, row, i)
      ensures why.Duplicate? ==> indexes[i].unique && SharesKey(indexes[i].columns, table, row)
      ensures Keeps(old(pager.pages), pager.pages, pager.pageSize, |columnNames|, indexes, row, why.PageFull?)
    {
      hide RootsOf, ShapesOf, TreesOf;
      hide StaysWithin, Cramped, KeyBytes, Keeps;
      hide TreeOk, Forest, Dense, KeyOf, EncodeKey, Pager.Tidy;
      hide AgreeFrom, Unshared, NamesRows, Adds, SharesKey, RowBytes;
      ghost var shapes := Shapes();
      assert Trees()[0] == tree && Trees()[i + 1] == indexes[i].idxTree;
      why := IndexRow(i, rowID, row);
      EntryKeeps(old(pager.pages), pager.pages, pager.pageSize, |columnNames|, indexes, i, row, why.PageFull?);
      RowIndexed(indexes, shapes, Shapes(), i, table, rowID, row, why);
      if !why.Indexed? && !why.PageFull? {
        RowRefused(indexes, shapes, Shapes(), i, table, rowID, row, why);
      }
    }

    /** Adds a stored row to every index in turn. */
    method IndexAll(rowID: int, row: Row, ghost table: map<Bytes, Bytes>) returns (rowsAffected: nat, r: InsertResult)
      requires Indexing(table, rowID, row, 0)
      modifies Trees(), pager
      ensures r.Inserted? ==> Indexing(table, rowID, row, |indexes|) && rowsAffected == 1 + |indexes|
      ensures r.Inserted? || (r.NotIndexed? && r.index < |indexes| && !r.why.Indexed? && !r.why.NotFound?)
      ensures Table() == old(Table())
      ensures r.NotIndexed? && !r.why.PageFull? ==> Indexing(table, rowID, row, r.index)
      ensures r.NotIndexed? && r.why.Duplicate? ==>
                indexes[r.index].unique && SharesKey(indexes[r.index].columns, table, row)
      ensures Keeps(old(pager.pages), pager.pages, pager.pageSize, |columnNames|, indexes, row, OutOfRoom(Inserting(r)))
    {
      hide RootsOf, ShapesOf, TreesOf;
      hide Indexing, SharesKey, Keeps;
      KeepsSame(pager.pages, pager.pageSize, |columnNames|, indexes, row);
      rowsAffected := 1;
      var i := 0;
      while i < |indexes|
        invariant i <= |indexes| && rowsAffected == 1 + i && Indexing(table, rowID, row, i)
        invariant Table() == old(Table())
        invariant Keeps(old(pager.pages), pager.pages, pager.pageSize, |columnNames|, indexes, row, false)
      {
        assert Trees()[i + 1] == indexes[i].idxTree;
        ghost var pages := pager.pages;
        var why := IndexNext(i, rowID, row, table);
        KeepsTrans(old(pager.pages), pages, pager.pages, pager.pageSize, |columnNames|, indexes, row, why.PageFull?);
        if !why.Indexed? {
          return rowsAffected, NotIndexed(i, why);
        }
        rowsAffected := rowsAffected + 1;
        i := i + 1;
      }
      r := Inserted;
    }

    /** A row was replaced in the table and in the first n indexes; the others
        still agree with the table as it was. */
    ghost predicate Moving(table: map<Bytes, Bytes>, key: Bytes, i: nat, original: Row, updated: Row, n: nat)
      reads this`indexes, Trees(), tree, pager
    {
      && Linked() && IndexesFit() && Dense(pager.pages, tree.shape, tree.rootID) && n <= |indexes|
      && key in table && Decoded(table[key]) == RowOk(original) && Table() == table[key := RowBytes(updated)]
      && Replaced(original, i, updated) && i < |columnNames| && Encodable(updated)
      && AgreeFrom(indexes, Shapes(), Table(), 0, n) && AgreeFrom(indexes, Shapes(), table, n, |indexes|)
    }

    /** A row was replaced in the table and moved in the first j indexes; index j
        refused to. */
    ghost predicate Stuck(table: map<Bytes, Bytes>, key: Bytes, original: Row, updated: Row, j: nat)
      reads this`indexes, Trees(), tree, pager
    {
      && Linked() && IndexesFit() && Dense(pager.pages, tree.shape, tree.rootID) && j < |indexes|
      && key in table && Decoded(table[key]) == RowOk(original) && Table() == table[key := RowBytes(updated)]
      && AgreeFrom(indexes, Shapes(), Table(), 0, j) && AgreeFrom(indexes, Shapes(), table, j + 1, |indexes|)
    }

    /** What index j says about the row it refused to move. */
    ghost predicate Refuses(key: Bytes, i: nat, j: nat, entry: IndexResult)
      reads this`indexes, tree
    {
      && j < |indexes| && !entry.Indexed? && i < |columnNames| && columnNames[i] in indexes[j].columns.on
      && (entry.Duplicate? ==> indexes[j].unique && OtherHolds(indexes[j].columns, Table(), key))
      && (indexes[j].unique ==> entry.Duplicate? || entry.PageFull?)
    }

    method MoveNext(j: nat, key: Bytes, i: nat, original: Row, updated: Row, ghost table: map<Bytes, Bytes>)
      returns (r: IndexResult)
      requires j < |indexes| && Moving(table, key, i, original, updated, j)
      modifies indexes[j].idxTree, pager
      ensures Table() == old(Table())
      ensures r.Indexed? ==> Moving(table, key, i, original, updated, j + 1)
      ensures !r.Indexed? ==> Refuses(key, i, j, r)
      ensures !r.Indexed? && !r.PageFull? ==> Stuck(table, key, original, updated, j)
      ensures Keeps(old(pager.pages), pager.pages, pager.pageSize, |columnNames|, indexes, updated, r.PageFull?)
    {
      hide RootsOf, ShapesOf, TreesOf;
      hide StaysWithin, Cramped, KeyBytes, Keeps;
      hide TreeOk, Forest, Dense, KeyOf, Pager.Tidy, AgreeFrom;
      hide NamesRows, Moves, RowBytes, Decoded, Replaced, OtherHolds, Encodable;
      ghost var shapes := Shapes();
      assert Trees()[0] == tree && Trees()[j + 1] == indexes[j].idxTree;
      WellTypedBoth(table[key], original, i, updated);
      if columnNames[i] in indexes[j].columns.on {
        assert NamesRows(shapes[j + 1].contents);
        r := MoveEntry(j, original, updated);
        EntryKeeps(old(pager.pages), pager.pages, pager.pageSize, |columnNames|, indexes, j, updated, r.PageFull?);
        if r.Indexed? {
          EntryMoved(indexes, shapes, Shapes(), j, table, key, i, original, updated);
        } else {
          EntryRefused(indexes, shapes, Shapes(), j, table, key, i, original, updated, r);
        }
      } else {
        EntryUnmoved(indexes, shapes, j, table, key, columnNames, i, original, updated);
        KeepsSame(pager.pages, pager.pageSize, |columnNames|, indexes, updated);
        r := Indexed;
      }
    }

    /** Moves the entries of one row in every index on the updated column. */
    method MoveAll(key: Bytes, i: nat, original: Row, updated: Row, ghost table: map<Bytes, Bytes>)
      returns (j: nat, r: IndexResult)
      requires Moving(table, key, i, original, updated, 0)
      modifies Trees(), pager
      ensures Table() == old(Table())
      ensures r.Indexed? ==> Moving(table, key, i, original, updated, |indexes|)
      ensures !r.Indexed? ==> Refuses(key, i, j, r)
      ensures !r.Indexed? && !r.PageFull? ==> Stuck(table, key, original, updated, j)
      ensures Keeps(old(pager.pages), pager.pages, pager.pageSize, |columnNames|, indexes, updated, r.PageFull?)
    {
      hide RootsOf, ShapesOf, TreesOf;
      hide Moving, Refuses, Stuck, Keeps;
      KeepsSame(pager.pages, pager.pageSize, |columnNames|, indexes, updated);
      j := 0;
      while j < |indexes|
        invariant j <= |indexes| && Moving(table, key, i, original, updated, j) && Table() == old(Table())
        invariant Keeps(old(pager.pages), pager.pages, pager.pageSize, |columnNames|, indexes, updated, false)
      {
        assert Trees()[j + 1] == indexes[j].idxTree;
        ghost var pages := pager.pages;
        r := MoveNext(j, key, i, original, updated, table);
        KeepsTrans(old(pager.pages), pages, pager.pages, pager.pageSize, |columnNames|, indexes, updated, r.PageFull?);
        if !r.Indexed? {
          return;
        }
        j := j + 1;
      }
      r := Indexed;
    }

    /** A row was rewritten but not moved in index j: the table is well-formed,
        and its unique indexes agree with it if j is not one of them and the row
        has its old key in every later one. */
    ghost predicate LeftUnmoved(key: Bytes, i: nat, why: Refusal)
      reads this`indexes, Trees(), tree, pager
    {
      && why.NotMoved? && Refuses(key, i, why.index, why.entry)
      && (!why.entry.PageFull? ==>
            Valid() && (UniqueAgree() <==> Harmless(indexes, why.index, why.original, why.updated)))
    }

    lemma UnmovedStands(table: map<Bytes, Bytes>, key: Bytes, i: nat, original: Row, updated: Row, j: nat,
                        entry: IndexResult)
      requires Refuses(key, i, j, entry) && (!entry.PageFull? ==> Stuck(table, key, original, updated, j))
      requires AllWellTyped(updated) && Encodable(updated) && RowKeys(Table()) && RowsFit(Table(), |columnNames|)
      ensures LeftUnmoved(key, i, NotMoved(j, entry, original, updated))
    {
      hide TreeOk, Forest, Dense, KeyOf, Pager.Tidy, AgreeFrom;
      hide NamesRows, Decoded, RowKeys, RowsFit, Linked, IndexesFit;
      hide OtherHolds, Harmless, Encodable, RowBytes;
      if !entry.PageFull? {
        if indexes[j].unique {
          OthersDisagree(Table(), Shapes()[j + 1].contents, indexes[j].columns, key);
        }
        MovedAgreement(indexes, Shapes(), table, key, original, updated, j);
      }
    }

    /** Rewrites one row and its index entries. A row that cannot be encoded or
        stored is left as it was; one that an index refuses is rewritten. */
    method ReplaceRow(key: Bytes, i: nat, original: Row, updated: Row) returns (why: Option<Refusal>)
      requires Valid() && UniqueAgree()
      requires key in Table() && Decoded(Table()[key]) == RowOk(original) && i < |columnNames|
      requires Replaced(original, i, updated)
      modifies Trees(), pager
      ensures why == None ==> Valid() && UniqueAgree() && Table() == old(Table())[key := RowBytes(updated)]
      ensures why == Some(CannotEncode) <==> !Encodable(updated)
      ensures why == Some(CannotEncode) ==> Valid() && UniqueAgree() && Table() == old(Table())
      ensures why == Some(NoRoom) <==>
                && Encodable(updated)
                && !old(HasRoom(pager.pages, tree.shape, tree.rootID, key, RowBytes(updated), pager.pageSize))
      ensures why.Some? && why.value.NotMoved? ==>
                && why.value.original == original && why.value.updated == updated
                && Table() == old(Table())[key := RowBytes(updated)] && LeftUnmoved(key, i, why.value)
      ensures why.Some? ==> why.value.CannotEncode? || why.value.NoRoom? || why.value.NotMoved?
      ensures Keeps(old(pager.pages), pager.pages, pager.pageSize, |columnNames|, indexes, updated,
                    why.Some? && IsFull(why.value))
    {
      hide TreeOk, Forest, Dense, KeyOf, Pager.Tidy, AgreeFrom, NamesRows, Decoded, RowKeys, RowsFit, Replaced;
      hide HasRoom, RowBytes, AllStorable, Refuses, LeftUnmoved, Stuck, Keeps, StaysWithin, Cramped;
      ghost var table, shapes0, pages0 := Table(), Shapes(), pager.pages;
      KeepsSame(pages0, pager.pageSize, |columnNames|, indexes, updated);
      RowKeyLength(table, key);
      RowWidth(table, key, original, i, updated, |columnNames|);
      WellTypedBoth(table[key], original, i, updated);
      var stored, encoded := Encode(updated);
      if !encoded {
        return Some(CannotEncode);
      }
      RowReplaced(table, key, |columnNames|, original, i, updated);
      var saved := PutRow(key, stored);
      RowKeeps(pages0, pager.pages, pager.pageSize, indexes, key, updated, !saved);
      if !saved {
        return Some(NoRoom);
      }
      ghost var pages1 := pager.pages;
      StartsAgreeing(indexes, shapes0, Shapes(), table, Table(), updated);
      var j, entry := MoveAll(key, i, original, updated, table);
      KeepsTrans(pages0, pages1, pager.pages, pager.pageSize, |columnNames|, indexes, updated, entry.PageFull?);
      if !entry.Indexed? {
        UnmovedStands(table, key, i, original, updated, j, entry);
        return Some(NotMoved(j, entry, original, updated));
      }
      why := None;
    }

    /** The first n keys' rows are updated, the unique indexes agree, and none of
        them blocked a row. */
    ghost predicate Updating(where: Condition, expr: Expression, i: nat, table: map<Bytes, Bytes>, keys: seq<Bytes>,
                             n: nat,
                             matched: set<Bytes>)
      reads this`indexes, Trees(), tree, pager
    {
      && Valid() && UniqueAgree() && i < |columnNames| && ListsKeys(keys, table)
      && UpdatedUpTo(where, expr, i, table, Table(), keys, n)
      && Matched(where, table, keys, n, matched)
      && (forall m :: 0 <= m < n ==> Unblocked(indexes, columnNames[i], where, expr, i, table, keys[m]))
    }

    /** The update stopped at the row of keys[n]. */
    ghost predicate StoppedAt(where: Condition, expr: Expression, i: nat, table: map<Bytes, Bytes>, keys: seq<Bytes>,
                              n: nat,
                              why: Refusal)
      reads this`indexes, Trees(), tree, pager
    {
      && n < |keys| && i < |columnNames| && ListsKeys(keys, table) && keys[n] in table
      && Reason(where, expr, i, table[keys[n]], why)
      && (!why.NoRoom? && !why.NotMoved? ==>
            Valid() && UniqueAgree() && UpdatedUpTo(where, expr, i, table, Table(), keys, n))
      && (why.NotMoved? ==> UpdatedUpTo(where, expr, i, table, Table(), keys, n + 1) && LeftUnmoved(keys[n], i, why))
      && (forall m :: 0 <= m < n ==>
            && keys[m] in table
            && UpdatesTo(where, expr, i, table[keys[m]], UpdatedBytes(where, expr, i, table[keys[m]]))
            && Unblocked(indexes, columnNames[i], where, expr, i, table, keys[m]))
    }

    /** Updates the row of the next key, if it matches. */
    method UpdateNext(where: Condition, expr: Expression, i: nat, encodedRow: Bytes, ghost table: map<Bytes, Bytes>,
                      keys: seq<Bytes>, n: nat, ghost matched: set<Bytes>)
      returns (why: Option<Refusal>, affected: nat, ghost matched': set<Bytes>)
      requires Updating(where, expr, i, table, keys, n, matched) && Computes(expr)
      requires n < |keys| && keys[n] in table && table[keys[n]] == encodedRow
      modifies Trees(), pager
      ensures why == None ==>
        Updating(where, expr, i, table, keys, n + 1, matched') && |matched'| == |matched| + affected
      ensures why.Some? ==> StoppedAt(where, expr, i, table, keys, n, why.value)
      ensures KeepsAll(old(pager.pages), pager.pages, pager.pageSize, |columnNames|, indexes, table, expr,
                       why.Some? && IsFull(why.value))
    {
      hide Keeps, KeepsAll;
      hide TreeOk, Forest, Dense, Pager.Tidy, AgreeFrom, NamesRows;
      hide Decoded, RowKeys, RowsFit, Rank, HasRoom, LeftUnmoved;
      hide UpdatesTo, Matches, EntriesNameRows, OnColumns, Matched;
      hide UpdatedUpTo, ListsKeys, Encodable, Unblocked, UpdatedBytes;
      ghost var now := Table();
      KeepsAllSame(pager.pages, pager.pageSize, |columnNames|, indexes, table, expr);
      matched', affected := matched, 0;
      NextToUpdate(where, expr, i, table, now, keys, n, |columnNames|);
      AllUpdating(where, expr, i, table, now, keys, n);
      var original := DecodeRow(encodedRow);
      var matches := where(original.row);
      if matches.None? {
        return Some(NotBoolean), affected, matched';
      }
      if !matches.value {
        OneSkipped(where, expr, i, table, now, keys, n, matched);
        SkippedUnblocked(indexes, columnNames[i], where, expr, i, table, keys[n]);
        return None, affected, matched';
      }
      var val := expr(original.row);
      if val.None? {
        return Some(NoValue), affected, matched';
      }
      why, matched' := UpdateRow(where, expr, i, original.row, val.value, table, keys, n, matched);
      affected := if why == None then 1 else 0;
    }

    /** Rewrites the row of the next key, which matches. */
    method UpdateRow(where: Condition, expr: Expression, i: nat, original: Row, val: Value,
                     ghost table: map<Bytes, Bytes>,
                     keys: seq<Bytes>, n: nat, ghost matched: set<Bytes>)
      returns (why: Option<Refusal>, ghost matched': set<Bytes>)
      requires Updating(where, expr, i, table, keys, n, matched) && Computes(expr)
      requires n < |keys| && keys[n] in table && Decoded(table[keys[n]]) == RowOk(original) && i < |original|
      requires where(original) == Some(true) && expr(original) == Some(val)
      modifies Trees(), pager
      ensures why == None ==> Updating(where, expr, i, table, keys, n + 1, matched') && |matched'| == |matched| + 1
      ensures why.Some? ==> StoppedAt(where, expr, i, table, keys, n, why.value) && matched' == matched
      ensures KeepsAll(old(pager.pages), pager.pages, pager.pageSize, |columnNames|, indexes, table, expr,
                       why.Some? && IsFull(why.value))
    {
      hide RootsOf, ShapesOf, TreesOf;
      hide TreeOk, Forest, Dense, Pager.Tidy, AgreeFrom, NamesRows;
      hide Decoded, RowKeys, RowsFit, Rank, HasRoom, LeftUnmoved;
      hide UpdatesTo, Matches, EntriesNameRows, OnColumns, Matched;
      hide UpdatedUpTo, ListsKeys, Encodable, Unblocked, UpdatedBytes;
      hide Keeps, KeepsAll, IsFull, Linked, IndexesFit, StoppedAt, Reason;
      ghost var now, pages := Table(), pager.pages;
      matched' := matched;
      NextToUpdate(where, expr, i, table, now, keys, n, |columnNames|);
      AllUpdating(where, expr, i, table, now, keys, n);
      var updated := original[i := val];
      why := ReplaceRow(keys[n], i, original, updated);
      UpdatedKeeps(pages, pager.pages, pager.pageSize, |columnNames|, indexes, table, expr, keys[n], i,
                   why.Some? && IsFull(why.value));
      if why == None || why.value.NotMoved? {
        OneUpdated(where, expr, i, table, now, keys, n, matched, updated);
      }
      if why == None {
        RowUnblocked(indexes, Shapes(), columnNames[i], where, expr, i, table, Table(), keys, n);
        matched' := matched + {keys[n]};
      } else {
        StopsThere(where, expr, i, table, keys, n, original, val, why.value);
      }
    }

    lemma StopsThere(where: Condition, expr: Expression, i: nat, table: map<Bytes, Bytes>, keys: seq<Bytes>, n: nat,
                     original: Row, val: Value, why: Refusal)
      requires n < |keys| && i < |columnNames| && ListsKeys(keys, table) && keys[n] in table
      requires Decoded(table[keys[n]]) == RowOk(original) && i < |original|
      requires where(original) == Some(true) && expr(original) == Some(val)
      requires why.CannotEncode? || why.NoRoom? || why.NotMoved?
      requires why.CannotEncode? <==> !Encodable(original[i := val])
      requires why.CannotEncode? ==> Valid() && UniqueAgree() && UpdatedUpTo(where, expr, i, table, Table(), keys, n)
      requires why.NotMoved? ==>
                 && why.original == original && why.updated == original[i := val]
                 && UpdatedUpTo(where, expr, i, table, Table(), keys, n + 1) && LeftUnmoved(keys[n], i, why)
      requires forall m :: 0 <= m < n ==>
                 && keys[m] in table
                 && UpdatesTo(where, expr, i, table[keys[m]], UpdatedBytes(where, expr, i, table[keys[m]]))
                 && Unblocked(indexes, columnNames[i], where, expr, i, table, keys[m])
      ensures StoppedAt(where, expr, i, table, keys, n, why)
    {
      hide LeftUnmoved, UpdatedUpTo, Unblocked, UpdatesTo, UpdatedBytes;
      hide ListsKeys, Valid, UniqueAgree, Encodable, Decoded;
    }

    method UpdateKeys(where: Condition, expr: Expression, i: nat, keys: seq<Bytes>, encodedRows: seq<Bytes>,
                      ghost table: map<Bytes, Bytes>)
      returns (rowsAffected: nat, n: nat, why: Option<Refusal>, ghost matched: set<Bytes>)
      requires Updating(where, expr, i, table, keys, 0, {}) && Computes(expr)
      requires |encodedRows| == |keys|
      requires forall j :: 0 <= j < |keys| ==> keys[j] in table && table[keys[j]] == encodedRows[j]
      modifies Trees(), pager
      ensures why == None ==> Updating(where, expr, i, table, keys, |keys|, matched) && rowsAffected == |matched|
      ensures why.Some? ==> n < |keys| && StoppedAt(where, expr, i, table, keys, n, why.value)
      ensures KeepsAll(old(pager.pages), pager.pages, pager.pageSize, |columnNames|, indexes, table, expr,
                       why.Some? && IsFull(why.value))
    {
      hide RootsOf, ShapesOf, TreesOf;
      hide Updating, StoppedAt, KeepsAll;
      KeepsAllSame(pager.pages, pager.pageSize, |columnNames|, indexes, table, expr);
      rowsAffected, matched := 0, {};
      n := 0;
      while n < |keys|
        invariant n <= |keys| && Updating(where, expr, i, table, keys, n, matched) && rowsAffected == |matched|
        invariant KeepsAll(old(pager.pages), pager.pages, pager.pageSize, |columnNames|, indexes, table, expr, false)
      {
        var affected;
        ghost var pages := pager.pages;
        why, affected, matched := UpdateNext(where, expr, i, encodedRows[n], table, keys, n, matched);
        KeepsAllTrans(old(pager.pages), pages, pager.pages, pager.pageSize, |columnNames|, indexes, table, expr,
                      why.Some? && IsFull(why.value));
        if why.Some? {
          return;
        }
        rowsAffected := rowsAffected + affected;
        n := n + 1;
      }
      why := None;
    }

    /** The first column of this name. */
    method ColumnIndex(column: string) returns (i: nat, found: bool)
      ensures found <==> column in columnNames
      ensures i == FirstColumn(columnNames, column) && (found <==> i < |columnNames|)
    {
      i := 0;
      while i < |columnNames| && columnNames[i] != column
        invariant i <= |columnNames| && forall j :: 0 <= j < i ==> columnNames[j] != column
      {
        i := i + 1;
      }
      found := i < |columnNames|;
      IsFirst(columnNames, column, i);
    }

    /** The update stopped at the row of key: rows of lower keys are updated, those
        of higher keys are not, and the row itself only if an index refused it. */
    ghost predicate Halted(column: string, where: Condition, expr: Expression, table: map<Bytes, Bytes>, key: Bytes,
                           why: Refusal)
      reads this`indexes, Trees(), tree, pager
    {
      var i := FirstColumn(columnNames, column);
      && key in table && Reason(where, expr, i, table[key], why)
      && (!why.NoRoom? ==> Table() == PartlyUpdated(where, expr, i, table, key))
      && (!why.NoRoom? && !why.NotMoved? ==> Valid() && UniqueAgree())
      && (why.NotMoved? ==> LeftUnmoved(key, i, why))
      && (why.NotMoved? && why.entry.Duplicate? ==>
            Refuses(key, i, why.index, why.entry) && Blocked(indexes[why.index].columns, where, expr, i, table, key))
      && (forall k :: k in table && Rank(k) < Rank(key) ==>
            && UpdatesTo(where, expr, i, table[k], UpdatedBytes(where, expr, i, table[k]))
            && Unblocked(indexes, column, where, expr, i, table, k))
    }

    /** Assigns an expression to a column of every matching row. On success each
        row is rewritten exactly as its old contents say, every unique index
        agrees with the table after every single row, and no row's new key was
        held by another row of the table as it then was. Otherwise the update
        stops at the first row it cannot do. */
    method Update(column: string, where: Condition, expr: Expression) returns (rowsAffected: nat, r: UpdateResult)
      requires Valid() && UniqueAgree() && Computes(expr)
      modifies Trees(), pager
      ensures r.NoSuchColumn? <==> column !in columnNames
      ensures r.NoSuchColumn? ==> Valid() && UniqueAgree() && Table() == old(Table())
      ensures r.Updated? ==> Valid() && UniqueAgree() && Table().Keys == old(Table()).Keys
      ensures r.Updated? ==>
                var i := FirstColumn(columnNames, column);
                forall k :: k in old(Table()) ==>
                  && UpdatesTo(where, expr, i, old(Table())[k], Table()[k])
                  && Unblocked(indexes, column, where, expr, i, old(Table()), k)
      ensures r.Updated? ==> rowsAffected == |set k | k in old(Table()) && Matches(where, old(Table())[k])|
      ensures r.Stopped? ==> Halted(column, where, expr, old(Table()), r.key, r.why)
      ensures KeepsAll(old(pager.pages), pager.pages, pager.pageSize, |columnNames|, indexes, old(Table()), expr,
                       OutOfRoom(Reply.Updating(r)))
    {
      hide KeepsAll;
      hide TreeOk, Forest, Dense, Pager.Tidy, AgreeFrom, NamesRows, Decoded, RowKeys, RowsFit, Rank, Listing;
      hide UpdatesTo, Matches, EntriesNameRows, OnColumns, Matched;
      hide UpdatedUpTo, Sorted, FirstColumn, Unblocked, StoppedAt, Halted;
      KeepsAllSame(pager.pages, pager.pageSize, |columnNames|, indexes, Table(), expr);
      rowsAffected := 0;
      var i, found := ColumnIndex(column);
      if !found {
        return rowsAffected, NoSuchColumn;
      }
      ghost var table := Table();
      ForestTree(pager.pages, pager.nextID, Shapes(), RootsOf(Trees()), 0);
      var keys, encodedRows := tree.All();
      NoEmptyKey(table);
      ListsTable(keys, encodedRows, table);
      NothingUpdated(where, expr, i, table, keys);
      var n, why;
      ghost var matched;
      rowsAffected, n, why, matched := UpdateKeys(where, expr, i, keys, encodedRows, table);
      if why == None {
        AllUpdated(where, expr, i, table, Table(), keys, matched);
        AllUnblocked(indexes, column, where, expr, i, table, keys);
        r := Updated;
      } else {
        HaltsThere(column, where, expr, i, table, keys, n, why.value);
        r := Stopped(keys[n], why.value);
      }
    }

    lemma HaltsThere(column: string, where: Condition, expr: Expression, i: nat, table: map<Bytes, Bytes>,
                     keys: seq<Bytes>,
                     n: nat, why: Refusal)
      requires StoppedAt(where, expr, i, table, keys, n, why) && i == FirstColumn(columnNames, column)
      ensures Halted(column, where, expr, table, keys[n], why)
    {
      hide TreeOk, Forest, Dense, Pager.Tidy, AgreeFrom, NamesRows, Decoded, RowKeys, RowsFit, Rank, Valid, UniqueAgree;
      hide UpdatesTo, Matches, EntriesNameRows, OnColumns;
      hide UpdatedUpTo, FirstColumn, Unblocked, UpdatedBytes, OtherHolds;
      hide Encodable, PartlyUpdated, Harmless, ListsKeys;
      if why.NotMoved? {
        PartlyIs(where, expr, i, table, Table(), keys, n, n + 1);
        ReasonMatches(where, expr, i, table[keys[n]], why);
      } else if !why.NoRoom? {
        StoppedSame(where, expr, i, table[keys[n]], why);
        PartlyIs(where, expr, i, table, Table(), keys, n, n);
      }
      forall k | k in table && Rank(k) < Rank(keys[n])
        ensures UpdatesTo(where, expr, i, table[k], UpdatedBytes(where, expr, i, table[k]))
        ensures Unblocked(indexes, column, where, expr, i, table, k)
      {
        var m := ListedBelow(keys, table, n, k);
      }
    }

    /** A new last index is being filled from a scan of the table. */
    ghost predicate Building(cursor: C.Cursor)
      reads this`indexes, Trees(), tree, pager, cursor
    {
      && Linked() && IndexesFit() && Dense(pager.pages, tree.shape, tree.rootID)
      && RowKeys(Table()) && RowsFit(Table(), |columnNames|)
      && cursor.tree == tree && cursor.Valid() && |cursor.keys| == |cursor.values| && |indexes| > 0
      && var n := |indexes| - 1;
      && AgreeFrom(indexes, Shapes(), Table(), 0, n)
      && (indexes[n].unique ==> Agrees(PartOf(Table(), cursor.keys), Shapes()[n + 1].contents, indexes[n].columns))
    }

    /** Filling the new last index stopped at a row: it stays, and if it is unique
        it disagrees with the table. */
    ghost predicate Abandoned()
      reads this`indexes, Trees(), tree, pager
    {
      && Linked() && IndexesFit() && Dense(pager.pages, tree.shape, tree.rootID)
      && RowKeys(Table()) && RowsFit(Table(), |columnNames|) && |indexes| > 0
      && var n := |indexes| - 1;
      && AgreeFrom(indexes, Shapes(), Table(), 0, n)
      && (indexes[n].unique ==> !Agrees(Table(), Shapes()[n + 1].contents, indexes[n].columns))
    }

    /** Indexes the next scanned row. */
    method BuildNext(cursor: C.Cursor) returns (more: bool, r: IndexResult)
      requires Building(cursor)
      modifies cursor, indexes[|indexes| - 1].idxTree, pager
      ensures Table() == old(Table())
      ensures more && r.Indexed? ==> Building(cursor)
      ensures more && !r.Indexed? && !r.PageFull? ==> Abandoned()
      ensures more && r.Indexed? ==> Tables.Unseen(Table(), cursor.keys) < old(Tables.Unseen(Table(), cursor.keys))
      ensures !more ==> Building(cursor) && C.ScanOf(cursor.keys, cursor.values, Table(), cursor.start, cursor.end)
      ensures !more ==> cursor.keys == old(cursor.keys)
      ensures more && r.Duplicate? ==> HasTwins(indexes[|indexes| - 1].columns, Table())
      ensures KeepsIndexing(old(pager.pages), pager.pages, pager.pageSize, |columnNames|,
                            indexes[|indexes| - 1].columns.on,
                            Table(), more && r.PageFull?)
    {
      hide KeepsIndexing;
      hide TreeOk, Forest, Dense, Pager.Tidy, AgreeFrom, Decoded, RowKeys, RowsFit, Rank;
      hide Agrees, C.Standing, C.ScanOf, EntriesNameRows, OnColumns, HasTwins, PartOf, Tables.Unseen;
      KeepsIndexingSame(pager.pages, pager.pageSize, |columnNames|, indexes[|indexes| - 1].columns.on, Table());
      ghost var keys := cursor.keys;
      r := Indexed;
      assert Trees()[0] == tree && Trees()[|indexes|] == indexes[|indexes| - 1].idxTree;
      var k, v;
      k, v, more := cursor.Next();
      if more {
        RowScanned(pager.pages, tree.shape, cursor, keys, k, v, |columnNames|);
        r := IndexScanned(cursor, k, v, keys);
      }
    }

    lemma ScanStands(cursor: C.Cursor)
      requires Linked() && |indexes| > 0 && cursor.tree == tree && cursor.Valid()
      ensures C.Standing(pager.pages, tree.shape, cursor.leaf, cursor.idx, cursor.started, cursor.keys, cursor.values,
                         cursor.start, cursor.end)
      ensures tree != indexes[|indexes| - 1].idxTree && tree.pager == pager
    {
      hide TreeOk, Forest, Pager.Tidy, C.Standing;
      assert Trees()[0] == tree && Trees()[|indexes|] == indexes[|indexes| - 1].idxTree;
    }

    /** A scan has come to one more row, and the last index has the rows before it. */
    ghost predicate Scanned(cursor: C.Cursor, k: Bytes, v: Bytes, keys: seq<Bytes>)
      reads this`indexes, Trees(), tree, pager, cursor
    {
      && |indexes| > 0 && var n := |indexes| - 1;
      && AgreeFrom(indexes, Shapes(), Table(), 0, n)
      && (indexes[n].unique ==> Agrees(PartOf(Table(), keys), Shapes()[n + 1].contents, indexes[n].columns))
      && Linked() && IndexesFit() && Dense(pager.pages, tree.shape, tree.rootID)
      && RowKeys(Table()) && RowsFit(Table(), |columnNames|)
      && cursor.tree == tree && cursor.Valid() && cursor.keys == keys + [k] && |cursor.values| == |cursor.keys|
      && k in Table() && Table()[k] == v && k !in keys && |k| == 8 && Decoded(v).RowOk?
    }

    /** Indexes one scanned row; the scan stays where it is. */
    method IndexScanned(cursor: C.Cursor, k: Bytes, v: Bytes, ghost keys: seq<Bytes>) returns (r: IndexResult)
      requires Scanned(cursor, k, v, keys)
      modifies indexes[|indexes| - 1].idxTree, pager
      ensures Table() == old(Table())
      ensures r.Indexed? ==> Building(cursor)
      ensures !r.Indexed? && !r.PageFull? ==> Abandoned()
      ensures r.Duplicate? ==> HasTwins(indexes[|indexes| - 1].columns, Table())
      ensures KeepsIndexing(old(pager.pages), pager.pages, pager.pageSize, |columnNames|,
                            indexes[|indexes| - 1].columns.on,
                            Table(), r.PageFull?)
    {
      hide KeepsIndexing, StaysWithin, Cramped, KeyBytes, OnePager, KeyOf, StoredKey;
      hide TreeOk, Forest, Dense, Pager.Tidy, AgreeFrom, NamesRows;
      hide Decoded, RowKeys, RowsFit, Rank, EncodeKey, DecodeKey;
      hide Agrees, Adds, C.Standing, C.ScanOf, EntriesNameRows, OnColumns, HasTwins, PartOf, SameLoads, AllWellTyped;
      hide RootsOf, HasRoom, TailFilled, ProbeLeafEmpty;
      var n := |indexes| - 1;
      ghost var shapes, table, pages, shape := Shapes(), Table(), pager.pages, tree.shape;
      ScanStands(cursor);
      assert Trees()[0] == tree && Trees()[n + 1] == indexes[n].idxTree;
      var row := DecodeRow(v);
      DecodedWellTyped(v);
      KeyOfDecoded(k);
      r := IndexRow(n, DecodeKey(k), row.row);
      assert tree.shape == shape;
      ScannedKeeps(pages, pager.pages, pager.pageSize, |columnNames|, indexes[n].columns, table, k, row.row,
                   r.PageFull?);
      RowBuilt(indexes, shapes, Shapes(), n, table, keys, k, v, row.row, DecodeKey(k), r);
      if r.Indexed? {
        StillStanding(pages, pager.pages, shape, cursor);
        ForestTree(pager.pages, pager.nextID, Shapes(), RootsOf(Trees()), 0);
      }
    }

    method BuildAll(cursor: C.Cursor) returns (r: IndexResult)
      requires |indexes| > 0 && Building(cursor)
      modifies cursor, indexes[|indexes| - 1].idxTree, pager
      ensures Table() == old(Table())
      ensures r.Indexed? ==> Building(cursor) && C.ScanOf(cursor.keys, cursor.values, Table(), cursor.start, cursor.end)
      ensures !r.Indexed? && !r.PageFull? ==> Abandoned()
      ensures r.Duplicate? ==> HasTwins(indexes[|indexes| - 1].columns, Table())
      ensures KeepsIndexing(old(pager.pages), pager.pages, pager.pageSize, |columnNames|,
                            indexes[|indexes| - 1].columns.on,
                            Table(), r.PageFull?)
    {
      hide RootsOf, ShapesOf, TreesOf;
      hide Building, HasTwins, C.ScanOf, Abandoned, KeepsIndexing;
      KeepsIndexingSame(pager.pages, pager.pageSize, |columnNames|, indexes[|indexes| - 1].columns.on, Table());
      var more := true;
      while more
        invariant indexes == old(indexes) && Building(cursor) && Table() == old(Table())
        invariant !more ==> C.ScanOf(cursor.keys, cursor.values, Table(), cursor.start, cursor.end)
        invariant KeepsIndexing(old(pager.pages), pager.pages, pager.pageSize, |columnNames|,
                                indexes[|indexes| - 1].columns.on, Table(), false)
        decreases Tables.Unseen(Table(), cursor.keys), more
      {
        ghost var pages := pager.pages;
        more, r := BuildNext(cursor);
        KeepsIndexingTrans(old(pager.pages), pages, pager.pages, pager.pageSize, |columnNames|,
                           indexes[|indexes| - 1].columns.on, Table(), more && r.PageFull?);
        if more && !r.Indexed? {
          return;
        }
      }
      r := Indexed;
    }

    /** Registers a new empty index on a fresh page. */
    method AddEmptyIndex(unique: bool, on: seq<string>)
      requires Linked() && IndexesFit() && Dense(pager.pages, tree.shape, tree.rootID)
      modifies this`indexes, pager`nextID
      ensures pager.pages == old(pager.pages)
      ensures Linked() && IndexesFit() && Dense(pager.pages, tree.shape, tree.rootID)
      ensures |indexes| == |old(indexes)| + 1 && indexes[..|old(indexes)|] == old(indexes)
      ensures var idx := indexes[|old(indexes)|];
        idx.unique == unique && idx.columns == Columns(OrdinalsOf(columnNames), on) && fresh(idx.idxTree) &&
        Shapes() == old(Shapes()) + [idx.idxTree.shape] && idx.idxTree.shape.contents == map[]
    {
      hide ShapesOf, TreesOf;
      hide TreeOk, Dense, NamesRows, OrdinalsOf, Forest, EntriesNameRows, OnColumns, OnePager, RootsOf;
      ghost var ts, shapes, roots := Trees(), Shapes(), RootsOf(Trees());
      ghost var next := pager.nextID;
      var rootpage := pager.NextID();
      ghost var empty := Shape(map[rootpage := Info(0, 0.0, 1.0)], map[]);
      EmptyTree(pager.pages, rootpage);
      var idxTree := new Tree(pager, rootpage, empty);
      var ordinals := Ordinals(columnNames);
      var idx := new Index(unique, Columns(ordinals, on), idxTree);
      indexes := indexes + [idx];
      TreesGrow(tree, old(indexes), idx);
      OnePagerGrows(ts, pager, idxTree);
      assert Shapes() == shapes + [empty];
      ForestPlants(pager.pages, next, shapes, roots, rootpage);
      FitsGrow(old(indexes), idx, shapes, empty, columnNames);
    }

    /** Creates an index and fills it from the table. A unique index is built
        exactly when no two rows share a key, and then agrees with the table. If
        filling it fails it stays as far as it was filled. */
    method CreateIndex(unique: bool, on: seq<string>) returns (r: BuildResult)
      requires Valid() && UniqueAgree()
      modifies this`indexes, Trees(), pager
      ensures Table() == old(Table())
      ensures r.NoColumn? <==> !(forall i :: 0 <= i < |on| ==> on[i] in columnNames)
      ensures r.NoColumn? ==> indexes == old(indexes)
      ensures !r.NoColumn? ==> |indexes| == |old(indexes)| + 1 && indexes[..|old(indexes)|] == old(indexes)
      ensures !r.NoColumn? ==> var idx := indexes[|old(indexes)|];
        idx.unique == unique && idx.columns == Columns(OrdinalsOf(columnNames), on) && fresh(idx.idxTree)
      ensures r.NoColumn? || r.Built? ==> Valid() && UniqueAgree()
      ensures r.Failed? && !r.why.PageFull? ==> Valid() && (UniqueAgree() <==> !unique)
      ensures unique && r.Built? ==> !HasTwins(Columns(OrdinalsOf(columnNames), on), Table())
      ensures r == Failed(Duplicate) ==> HasTwins(Columns(OrdinalsOf(columnNames), on), Table())
      ensures KeepsIndexing(old(pager.pages), pager.pages, pager.pageSize, |columnNames|, on, Table(),
                            OutOfRoom(Creating(r)))
    {
      hide KeepsIndexing;
      hide TreeOk, Forest, Dense, Pager.Tidy, NamesRows, Decoded, RowKeys, RowsFit, Rank, HasTwins, OrdinalsOf, Agrees;
      hide C.ScanOf, C.Standing, EntriesNameRows, OnColumns, AgreeFrom;
      KeepsIndexingSame(pager.pages, pager.pageSize, |columnNames|, on, Table());
      var exist := AllColumns(on);
      if !exist {
        return NoColumn;
      }
      ghost var n, shapes := |indexes|, Shapes();
      AddEmptyIndex(unique, on);
      NoneIndexed(old(indexes), indexes, shapes, Shapes(), Table());
      r := FillLast();
      if r.Failed? && !r.why.PageFull? {
        LastAgreement(indexes, Shapes(), Table());
      }
    }

    method AllColumns(on: seq<string>) returns (exist: bool)
      ensures exist <==> forall i :: 0 <= i < |on| ==> on[i] in columnNames
    {
      var i := 0;
      while i < |on|
        invariant i <= |on| && forall j :: 0 <= j < i ==> on[j] in columnNames
      {
        if on[i] !in columnNames {
          return false;
        }
        i := i + 1;
      }
      exist := true;
    }

    /** A scan of the whole table, to fill the last index from. */
    method StartScan() returns (cursor: C.Cursor)
      requires Valid() && |indexes| > 0 && var n := |indexes| - 1;
        AgreeFrom(indexes, Shapes(), Table(), 0, n) && Shapes()[n + 1].contents == map[]
      ensures fresh(cursor) && Building(cursor)
      ensures Table() != map[] ==>
        IsGreatest(cursor.end, Table()) && forall k :: k in Table() ==> Rank(cursor.start) <= Rank(k)
    {
      hide RootsOf, ShapesOf, TreesOf;
      hide TreeOk, Forest, Dense, Pager.Tidy, NamesRows, Decoded, RowKeys, RowsFit, Rank, Agrees;
      hide C.Standing, EntriesNameRows, OnColumns, AgreeFrom, PartOf, IsGreatest, TailFilled, ProbeLeafEmpty;
      ForestTree(pager.pages, pager.nextID, Shapes(), RootsOf(Trees()), 0);
      var first := tree.FirstKey();
      var last := tree.LastKey();
      cursor := new C.Cursor(tree, first, last);
      NothingScanned(Table(), indexes[|indexes| - 1].columns);
      NoEmptyKey(Table());
      if Table() != map[] {
        DenseTailFilled(pager.pages, tree.shape, tree.rootID);
      }
    }

    /** Fills the last index from a full scan. */
    method FillLast() returns (r: BuildResult)
      requires Valid() && |indexes| > 0 && var n := |indexes| - 1;
        AgreeFrom(indexes, Shapes(), Table(), 0, n) && Shapes()[n + 1].contents == map[]
      modifies indexes[|indexes| - 1].idxTree, pager
      ensures Table() == old(Table()) && !r.NoColumn?
      ensures r.Built? ==> Valid() && UniqueAgree()
      ensures r.Failed? ==> !r.why.Indexed? && (!r.why.PageFull? ==> Abandoned())
      ensures indexes[|indexes| - 1].unique && r.Built? ==> !HasTwins(indexes[|indexes| - 1].columns, Table())
      ensures r == Failed(Duplicate) ==> HasTwins(indexes[|indexes| - 1].columns, Table())
      ensures KeepsIndexing(old(pager.pages), pager.pages, pager.pageSize, |columnNames|,
                            indexes[|indexes| - 1].columns.on,
                            Table(), OutOfRoom(Creating(r)))
    {
      hide RootsOf, ShapesOf, TreesOf;
      hide KeepsIndexing;
      hide Forest, Dense, Pager.Tidy, RowKeys, RowsFit, Rank, HasTwins, Agrees, IsGreatest, PartOf;
      hide C.ScanOf, C.Standing, EntriesNameRows, OnColumns, AgreeFrom, TreeOk;
      var cursor := StartScan();
      var why := BuildAll(cursor);
      if !why.Indexed? {
        return Failed(why);
      }
      LastAgrees(indexes, Shapes(), Table(), |indexes| - 1, cursor.keys, cursor.values, cursor.start, cursor.end);
      r := Built;
    }
  }

  /* ---- whole runs ---- */

  datatype Statement =
    | InsertRow(row: Row)
    | UpdateColumn(column: string, where: Condition, expr: Expression)
    | AddIndex(unique: bool, on: seq<string>)

  ghost predicate Suits(stmt: Statement, width: nat) {
    match stmt
    case InsertRow(row) => AllWellTyped(row) && |row| == width
    case UpdateColumn(_, _, expr) => Computes(expr)
    case AddIndex(_, _) => true
  }

  /** The statement brings only values of at most u bytes and indexes on at most c
      columns. */
  ghost predicate BringsWithin(stmt: Statement, u: nat, c: nat) {
    match stmt
    case InsertRow(row) => ValuesWithin(row, u)
    case UpdateColumn(_, _, expr) => YieldsWithin(expr, u)
    case AddIndex(_, on) => |on| <= c
  }

  datatype Reply = Inserting(insert: InsertResult) | Updating(update: UpdateResult) | Creating(build: BuildResult)

  /** A page had no room, which may leave a tree half split. */
  predicate OutOfRoom(reply: Reply) {
    match reply
    case Inserting(r) => r.TableFull? || (r.NotIndexed? && r.why.PageFull?)
    case Updating(r) => r.Stopped? && IsFull(r.why)
    case Creating(r) => r.Failed? && r.why.PageFull?
  }

  /** An index refused a row that the table has by now, and it or a later index is
      unique and misses that row's entry. */
  predicate Breaks(indexes: seq<Index>, reply: Reply) {
    match reply
    case Inserting(r) => r.NotIndexed? && !NoUnique(indexes, r.index)
    case Updating(r) => r.Stopped? && r.why.NotMoved? && !Harmless(indexes, r.why.index, r.why.original, r.why.updated)
    case Creating(r) => r.Failed? && indexes != [] && indexes[|indexes| - 1].unique
  }

  /** Over every run of insertions, updates and index creations, refused ones
      among them, every unique index agrees with the table until the first reply
      that breaks it, and no longer from there. While all values are short no
      page is ever full. */
  method Execute(t: IndexedTable, stmts: seq<Statement>, ghost m: int) returns (replies: seq<Reply>)
    requires t.Valid() && t.UniqueAgree() && forall i :: 0 <= i < |stmts| ==> Suits(stmts[i], |t.columnNames|)
    requires 0 <= m && UpToID(t.Table(), m) && m + |stmts| < TWO_63 - 1
    modifies t`indexes, t.Trees(), t.pager
    ensures |replies| <= |stmts|
    ensures forall i :: 0 <= i < |replies| ==> Answers(stmts[i], replies[i])
    ensures Unbroken(t.indexes, replies) ==> |replies| == |stmts| && t.Valid() && t.UniqueAgree()
    ensures !Unbroken(t.indexes, replies) && !OutOfRoom(replies[|replies| - 1]) ==> t.Valid() && !t.UniqueAgree()
    ensures |old(t.indexes)| <= |t.indexes| && t.indexes[..|old(t.indexes)|] == old(t.indexes)
    ensures forall u: nat, c: nat :: old(t.Spacious(u, c)) && AllBringWithin(stmts, u, c) ==>
                                       t.Spacious(u, c) && NeverFull(replies)
  {
    hide RootsOf, ShapesOf, TreesOf;
    hide IndexedTable.Valid, IndexedTable.UniqueAgree, IndexedTable.Spacious;
    hide Suits, UpToID, Breaks, OutOfRoom, Answers, BringsWithin, NeverFull, AllBringWithin;
    replies := [];
    NoReplies();
    while |replies| < |stmts|
      invariant |replies| <= |stmts| && t.Valid() && t.UniqueAgree() && UpToID(t.Table(), m + |replies|)
      invariant forall i :: 0 <= i < |replies| ==> Answers(stmts[i], replies[i])
      invariant Unbroken(t.indexes, replies)
      invariant forall u: nat, c: nat :: old(t.Spacious(u, c)) && AllBringWithin(stmts, u, c) ==>
                                           t.Spacious(u, c) && NeverFull(replies)
      invariant |old(t.indexes)| <= |t.indexes| && t.indexes[..|old(t.indexes)|] == old(t.indexes)
      invariant forall i :: 0 <= i < |t.Trees()| ==> t.Trees()[i] in old(t.Trees()) || fresh(t.Trees()[i])
    {
      ghost var indexes := t.indexes;
      var reply := ExecuteOne(t, stmts[|replies|], m + |replies|);
      AnotherReply(stmts, replies, reply);
      replies := replies + [reply];
      assert t.indexes[..|old(t.indexes)|] == t.indexes[..|indexes|][..|old(t.indexes)|];
      if OutOfRoom(reply) || Breaks(t.indexes, reply) {
        return;
      }
    }
  }

  /** No reply says that a page was full. */
  ghost predicate NeverFull(replies: seq<Reply>) {
    forall i :: 0 <= i < |replies| ==> !OutOfRoom(replies[i])
  }

  ghost predicate AllBringWithin(stmts: seq<Statement>, u: nat, c: nat) {
    forall i :: 0 <= i < |stmts| ==> BringsWithin(stmts[i], u, c)
  }

  lemma NoReplies()
    ensures NeverFull([])
  {
  }

  lemma AnotherReply(stmts: seq<Statement>, replies: seq<Reply>, reply: Reply)
    requires |replies| < |stmts|
    ensures NeverFull(replies) && !OutOfRoom(reply) ==> NeverFull(replies + [reply])
    ensures forall u: nat, c: nat :: AllBringWithin(stmts, u, c) ==> BringsWithin(stmts[|replies|], u, c)
  {
    hide OutOfRoom, BringsWithin;
  }

  predicate Answers(stmt: Statement, reply: Reply) {
    match stmt
    case InsertRow(_) => reply.Inserting?
    case UpdateColumn(_, _, _) => reply.Updating?
    case AddIndex(_, _) => reply.Creating?
  }

  /** The last reply did not end the run. */
  predicate Unbroken(indexes: seq<Index>, replies: seq<Reply>) {
    replies == [] || (!OutOfRoom(replies[|replies| - 1]) && !Breaks(indexes, replies[|replies| - 1]))
  }

  method ExecuteOne(t: IndexedTable, stmt: Statement, ghost m: int) returns (reply: Reply)
    requires t.Valid() && t.UniqueAgree() && Suits(stmt, |t.columnNames|)
    requires 0 <= m < TWO_63 - 1 && UpToID(t.Table(), m)
    modifies t`indexes, t.Trees(), t.pager
    ensures Answers(stmt, reply)
    ensures !OutOfRoom(reply) ==>
      t.Valid() && (t.UniqueAgree() <==> !Breaks(t.indexes, reply)) && UpToID(t.Table(), m + 1)
    ensures |old(t.indexes)| <= |t.indexes| && t.indexes[..|old(t.indexes)|] == old(t.indexes)
    ensures forall i :: 0 <= i < |t.Trees()| ==> t.Trees()[i] in old(t.Trees()) || fresh(t.Trees()[i])
    ensures forall u: nat, c: nat :: old(t.Spacious(u, c)) && BringsWithin(stmt, u, c) ==>
                                       t.Spacious(u, c) && !OutOfRoom(reply)
  {
    hide IndexedTable.Linked, IndexedTable.IndexesFit, IndexedTable.UniqueAgree, Dense;
    hide RowKeys, RowsFit, Decoded, UpToID;
    hide EncodeKey, DecodeKey, OrdinalsOf, AllStorable, UpdatesTo;
    hide Matches, HasTwins, HasRoom, Unblocked, Unshared, NoUnique;
    hide Ample, RowsWithin, ValuesWithin, YieldsWithin;
    match stmt {
      case InsertRow(row) => reply := ExecuteInsert(t, row, m);
      case UpdateColumn(column, where, expr) => reply := ExecuteUpdate(t, column, where, expr, m);
      case AddIndex(unique, on) =>
        ghost var table := t.Table();
        var r := t.CreateIndex(unique, on);
        SameIDs(table, t.Table(), m);
        ColumnsGrow(old(t.indexes), t.indexes, on);
        reply := Creating(r);
    }
  }

  method ExecuteInsert(t: IndexedTable, row: Row, ghost m: int) returns (reply: Reply)
    requires t.Valid() && t.UniqueAgree() && AllWellTyped(row) && |row| == |t.columnNames|
    requires 0 <= m < TWO_63 - 1 && UpToID(t.Table(), m)
    modifies t.Trees(), t.pager
    ensures reply.Inserting?
    ensures !OutOfRoom(reply) ==>
      t.Valid() && (t.UniqueAgree() <==> !Breaks(t.indexes, reply)) && UpToID(t.Table(), m + 1)
    ensures forall u: nat, c: nat :: old(t.Spacious(u, c)) && ValuesWithin(row, u) ==>
      t.Spacious(u, c) && !OutOfRoom(reply)
  {
    hide RootsOf, ShapesOf, TreesOf;
    hide IndexedTable.Linked, IndexedTable.IndexesFit, IndexedTable.UniqueAgree, Dense;
    hide RowKeys, RowsFit, Decoded, UpToID;
    hide EncodeKey, DecodeKey, AllStorable, HasTwins, HasRoom, Unshared, NoUnique, SharesKey, RowBytes;
    hide Ample, RowsWithin, ValuesWithin, ColumnsWithin;
    ghost var table := t.Table();
    LastIDFree(table, m);
    var rowID, _, r := t.Insert(row);
    if r.Inserted? || r.NotIndexed? {
      OneIDMore(table, rowID, RowBytes(row), m);
      RowsWithinAdded(table, EncodeKey(rowID), row);
    } else if r.Unstorable? {
      SameIDs(table, t.Table(), m);
    }
    reply := Inserting(r);
  }

  method ExecuteUpdate(t: IndexedTable, column: string, where: Condition, expr: Expression, ghost m: int)
    returns (reply: Reply)
    requires t.Valid() && t.UniqueAgree() && Computes(expr)
    requires 0 <= m < TWO_63 - 1 && UpToID(t.Table(), m)
    modifies t.Trees(), t.pager
    ensures reply.Updating?
    ensures !OutOfRoom(reply) ==>
      t.Valid() && (t.UniqueAgree() <==> !Breaks(t.indexes, reply)) && UpToID(t.Table(), m + 1)
    ensures forall u: nat, c: nat :: old(t.Spacious(u, c)) && YieldsWithin(expr, u) ==>
      t.Spacious(u, c) && !OutOfRoom(reply)
  {
    hide RootsOf, ShapesOf, TreesOf;
    hide IndexedTable.Valid, IndexedTable.UniqueAgree, UpToID, UpdatesTo;
    hide Matches, HasTwins, HasRoom, Unblocked, Harmless;
    hide Ample, RowsWithin, YieldsWithin, ColumnsWithin, UpdatedBytes;
    ghost var table := t.Table();
    var _, r := t.Update(column, where, expr);
    if !r.Stopped? || !r.why.NoRoom? {
      assert t.Table().Keys == table.Keys;
      SameIDs(table, t.Table(), m);
      if r.Updated? {
        EachUpdated(table, t.Table(), where, expr, FirstColumn(t.columnNames, column));
      }
      RowsWithinUpdated(table, t.Table(), where, expr, FirstColumn(t.columnNames, column));
    }
    reply := Reply.Updating(r);
  }

  lemma ColumnsGrow(indexes: seq<Index>, indexes': seq<Index>, on: seq<string>)
    requires indexes' == indexes ||
      (|indexes'| == |indexes| + 1 && indexes'[..|indexes|] == indexes && indexes'[|indexes|].columns.on == on)
    ensures forall c: nat :: ColumnsWithin(indexes, c) && |on| <= c ==> ColumnsWithin(indexes', c)
  {
    assert forall i :: 0 <= i < |indexes| ==> indexes[i] == indexes'[i];
  }

  lemma RowsWithinAdded(table: map<Bytes, Bytes>, key: Bytes, row: Row)
    requires AllWellTyped(row) && Encodable(row)
    ensures forall u: nat :: RowsWithin(table, u) && ValuesWithin(row, u) ==> RowsWithin(table[key := RowBytes(row)], u)
  {
    hide Decoded, RowBytes, ValuesWithin;
    StoredKeyOfRow(Columns(map[], []), row);
    forall u: nat | RowsWithin(table, u) && ValuesWithin(row, u)
      ensures RowsWithin(table[key := RowBytes(row)], u)
    {
      StoredWithin(row, u);
    }
  }

  /** A row the update wrote has values of the table or of the expression. */
  lemma UpdatedWithin(where: Condition, expr: Expression, i: nat, stored: Bytes, u: nat)
    requires Decoded(stored).RowOk? ==> ValuesWithin(Decoded(stored).row, u)
    requires YieldsWithin(expr, u) && Computes(expr)
    ensures var stored' := UpdatedBytes(where, expr, i, stored); Decoded(stored').RowOk? ==>
      ValuesWithin(Decoded(stored').row, u)
  {
    hide Decoded, RowBytes, ValueBytes, Encodable, WellTyped;
    if Matches(where, stored) {
      var row := Decoded(stored).row;
      var u' := UpdatedRow(where, expr, i, row);
      if u'.Some? && Encodable(u'.value) {
        DecodedWellTyped(stored);
        StoredKeyOfRow(Columns(map[], []), u'.value);
        StoredWithin(u'.value, u);
      }
    }
  }

  lemma EachUpdated(table: map<Bytes, Bytes>, now: map<Bytes, Bytes>, where: Condition, expr: Expression, i: nat)
    requires now.Keys == table.Keys && forall k :: k in table ==> UpdatesTo(where, expr, i, table[k], now[k])
    ensures forall k :: k in table ==> k in now && now[k] == UpdatedBytes(where, expr, i, table[k])
  {
    hide Decoded, UpdatedBytes, Encodable;
  }

  lemma RowsWithinUpdated(table: map<Bytes, Bytes>, now: map<Bytes, Bytes>, where: Condition, expr: Expression, i: nat)
    requires Computes(expr) && now.Keys == table.Keys
    requires forall k :: k in table ==>
      k in now && (now[k] == table[k] || now[k] == UpdatedBytes(where, expr, i, table[k]))
    ensures forall u: nat :: RowsWithin(table, u) && YieldsWithin(expr, u) ==> RowsWithin(now, u)
  {
    hide Decoded, UpdatedBytes, ValuesWithin, YieldsWithin, Computes;
    forall u: nat | RowsWithin(table, u) && YieldsWithin(expr, u)
      ensures RowsWithin(now, u)
    {
      forall k | k in now
        ensures Decoded(now[k]).RowOk? ==> ValuesWithin(Decoded(now[k]).row, u)
      {
        assert k in table.Keys;
        UpdatedWithin(where, expr, i, table[k], u);
      }
    }
  }

  lemma LastIDFree(table: map<Bytes, Bytes>, m: int)
    requires UpToID(table, m) && m < TWO_63 - 1
    ensures EncodeKey(TWO_63 - 1) !in table
  {
    hide EncodeKey, DecodeKey;
    KeyRoundTrip(TWO_63 - 1);
  }

  lemma OneIDMore(table: map<Bytes, Bytes>, rowID: int, stored: Bytes, m: int)
    requires UpToID(table, m) && 1 <= rowID < TWO_63 && rowID <= m + 1
    ensures UpToID(table[EncodeKey(rowID) := stored], m + 1)
  {
    hide EncodeKey, DecodeKey;
    KeyRoundTrip(rowID);
  }

  lemma SameIDs(table: map<Bytes, Bytes>, table': map<Bytes, Bytes>, m: int)
    requires UpToID(table, m) && table'.Keys == table.Keys
    ensures UpToID(table', m + 1)
  {
    hide DecodeKey;
    assert forall k :: k in table' ==> k in table'.Keys;
  }

  /** IndexFromDefinition's column map: a later column of the same name wins. */
  method Ordinals(names: seq<string>) returns (m: map<string, nat>)
    ensures m == OrdinalsOf(names)
  {
    m := map[];
    var i := 0;
    assert names[..0] == [];
    while i < |names|
      invariant i <= |names| && m == OrdinalsOf(names[..i])
    {
      assert names[..i + 1][..i] == names[..i];
      m := m[names[i] := i];
      i := i + 1;
    }
    assert names[..|names|] == names;
  }

  lemma TreesGrow(tree: Tree, indexes: seq<Index>, idx: Index)
    ensures TreesOf(tree, indexes + [idx]) == TreesOf(tree, indexes) + [idx.idxTree]
  {
  }

  lemma OnePagerGrows(ts: seq<Tree>, pager: Pager, t: Tree)
    requires OnePager(ts, pager) && t.pager == pager && forall i :: 0 <= i < |ts| ==> ts[i] != t
    ensures OnePager(ts + [t], pager) && RootsOf(ts + [t]) == RootsOf(ts) + [t.rootID]
  {
  }

  lemma FitsGrow(indexes: seq<Index>, idx: Index, shapes: seq<Shape>, s: Shape, names: seq<string>)
    requires EntriesNameRows(shapes) && OnColumns(indexes, names)
    requires s.contents == map[] && idx.columns.ordinals == OrdinalsOf(names)
    ensures EntriesNameRows(shapes + [s]) && OnColumns(indexes + [idx], names)
  {
  }

  lemma ForestPlants(pages: PageMap, next: PageID, shapes: seq<Shape>, roots: seq<PageID>, root: PageID)
    requires Forest(pages, next, shapes, roots) && 0 <= root == next && root !in pages
    ensures Forest(pages, next + 1, shapes + [Shape(map[root := Info(0, 0.0, 1.0)], map[])], roots + [root])
  {
    hide TreeOk;
    EmptyTree(pages, root);
  }

  lemma NoneIndexed(indexes: seq<Index>, indexes': seq<Index>, shapes: seq<Shape>, shapes': seq<Shape>,
                    table: map<Bytes, Bytes>)
    requires AgreeFrom(indexes, shapes, table, 0, |indexes|)
    requires |indexes'| == |indexes| + 1 && indexes'[..|indexes|] == indexes
    requires |shapes'| == |shapes| + 1 && shapes'[..|shapes|] == shapes
    ensures AgreeFrom(indexes', shapes', table, 0, |indexes|)
  {
    hide Agrees;
    forall i | 0 <= i < |indexes|
      ensures indexes'[i] == indexes[i] && shapes'[i + 1] == shapes[i + 1]
    {
      assert indexes'[..|indexes|][i] == indexes[i] && shapes'[..|shapes|][i + 1] == shapes[i + 1];
    }
  }

  lemma NothingScanned(table: map<Bytes, Bytes>, c: Columns)
    ensures Agrees(PartOf(table, []), map[], c)
  {
    assert PartOf(table, []) == map[];
  }

  lemma InRange(table: map<Bytes, Bytes>, first: Bytes, last: Bytes, k: Bytes)
    requires k in table && IsGreatest(last, table) && forall j :: j in table ==> Rank(first) <= Rank(j)
    ensures Rank(first) <= Rank(k) <= Rank(last)
  {
    hide Rank;
  }

  /** A scan from the first to the greatest key has every row. */
  lemma ScannedAll(keys: seq<Bytes>, values: seq<Bytes>, table: map<Bytes, Bytes>, first: Bytes, last: Bytes)
    requires C.ScanOf(keys, values, table, first, last)
    requires table != map[] ==> IsGreatest(last, table) && forall k :: k in table ==> Rank(first) <= Rank(k)
    ensures PartOf(table, keys) == table
  {
    hide Rank, IsGreatest;
    forall k | k in table
      ensures k in keys
    {
      InRange(table, first, last, k);
    }
  }

  lemma LastAgrees(indexes: seq<Index>, shapes: seq<Shape>, table: map<Bytes, Bytes>, n: nat,
                   keys: seq<Bytes>, values: seq<Bytes>, first: Bytes, last: Bytes)
    requires |indexes| == n + 1 && AgreeFrom(indexes, shapes, table, 0, n)
    requires indexes[n].unique ==> Agrees(PartOf(table, keys), shapes[n + 1].contents, indexes[n].columns)
    requires C.ScanOf(keys, values, table, first, last)
    requires table != map[] ==> IsGreatest(last, table) && forall k :: k in table ==> Rank(first) <= Rank(k)
    ensures AgreeFrom(indexes, shapes, table, 0, n + 1)
    ensures indexes[n].unique ==> !HasTwins(indexes[n].columns, table)
  {
    hide Rank, StoredKey, C.ScanOf, PartOf;
    ScannedAll(keys, values, table, first, last);
  }

  lemma NoEmptyKey(table: map<Bytes, Bytes>)
    requires RowKeys(table)
    ensures [] !in table
  {
    hide DecodeKey;
  }

  /** The entry a scan just yielded is a row it had not yielded before. */
  lemma RowScanned(pages: PageMap, s: Shape, cursor: C.Cursor, keys: seq<Bytes>, k: Bytes, v: Bytes, width: nat)
    requires C.Standing(pages, s, cursor.leaf, cursor.idx, true, keys + [k], cursor.values, cursor.start, cursor.end)
    requires |cursor.values| == |keys| + 1 && cursor.values[|keys|] == v
    requires RowKeys(s.contents) && RowsFit(s.contents, width)
    ensures k in s.contents && s.contents[k] == v && k !in keys && |k| == 8
    ensures Decoded(v).RowOk? && |Decoded(v).row| == width
    ensures Tables.Unseen(s.contents, keys + [k]) < Tables.Unseen(s.contents, keys)
  {
    hide Decoded, Rank, DecodeKey;
    var values := cursor.values[..|keys|];
    assert values + [v] == cursor.values;
    Tables.OneMoreSeen(pages, s, cursor, keys, values, k, v);
    assert (keys + [k])[|keys|] == k;
    forall j | 0 <= j < |keys|
      ensures keys[j] != k
    {
      assert (keys + [k])[j] == keys[j];
      StrictlyBelow(keys + [k], j, |keys|);
    }
  }

  /** A scan stands where it stood: no page of its tree was touched. */
  lemma StillStanding(pages: PageMap, pages': PageMap, s: Shape, cursor: C.Cursor)
    requires SameLoads(pages, pages', s)
    requires C.Standing(pages, s, cursor.leaf, cursor.idx, cursor.started, cursor.keys, cursor.values, cursor.start,
                        cursor.end)
    ensures C.Standing(pages', s, cursor.leaf, cursor.idx, cursor.started, cursor.keys, cursor.values, cursor.start,
                       cursor.end)
  {
    hide C.ScanOf, Listing, Rank;
  }

  lemma RowBuilt(indexes: seq<Index>, shapes: seq<Shape>, shapes': seq<Shape>, n: nat, table: map<Bytes, Bytes>,
                 keys: seq<Bytes>, k: Bytes, v: Bytes, row: Row, id: int, r: IndexResult)
    requires |indexes| == n + 1 && |shapes| == n + 2 == |shapes'| && shapes' == shapes[n + 1 := shapes'[n + 1]]
    requires k in table && table[k] == v && k !in keys && EncodeKey(id) == k && Decoded(v) == RowOk(row)
    requires EntriesNameRows(shapes) && AgreeFrom(indexes, shapes, table, 0, n)
    requires indexes[n].unique ==> Agrees(PartOf(table, keys), shapes[n + 1].contents, indexes[n].columns)
    requires Adds(indexes[n].columns, indexes[n].unique, shapes[n + 1].contents, id, row, r, shapes'[n + 1].contents)
    ensures AgreeFrom(indexes, shapes', table, 0, n)
    ensures !r.PageFull? ==> EntriesNameRows(shapes')
    ensures !r.Indexed? && !r.PageFull? && indexes[n].unique ==>
      !Agrees(table, shapes'[n + 1].contents, indexes[n].columns)
    ensures r.Indexed? && indexes[n].unique ==>
      Agrees(PartOf(table, keys + [k]), shapes'[n + 1].contents, indexes[n].columns)
    ensures r.Duplicate? ==> HasTwins(indexes[n].columns, table)
  {
    hide Agrees, KeyOf, EncodeKey, Decoded;
    var c, index := indexes[n].columns, shapes[n + 1].contents;
    if indexes[n].unique && KeyOf(c, row).Some? {
      var part := PartOf(table, keys);
      assert PartOf(table, keys + [k]) == part[k := v];
      AgreesInsert(part, index, c, k, v, KeyOf(c, row).value);
      if r.Duplicate? {
        TwinFound(table, part, index, c, k, KeyOf(c, row).value);
        TwinsDisagree(c, table, shapes'[n + 1].contents);
      }
    }
    if indexes[n].unique && KeyOf(c, row).None? {
      KeylessDisagrees(table, shapes'[n + 1].contents, c, k);
    }
  }

  lemma TwinsDisagree(c: Columns, table: map<Bytes, Bytes>, index: map<Bytes, Bytes>)
    requires HasTwins(c, table)
    ensures !Agrees(table, index, c)
  {
    hide StoredKey;
  }

  lemma KeylessDisagrees(table: map<Bytes, Bytes>, index: map<Bytes, Bytes>, c: Columns, k: Bytes)
    requires k in table && StoredKey(c, table[k]).None?
    ensures !Agrees(table, index, c)
  {
    hide StoredKey;
  }

  lemma LastAgreement(indexes: seq<Index>, shapes: seq<Shape>, table: map<Bytes, Bytes>)
    requires |indexes| > 0 && AgreeFrom(indexes, shapes, table, 0, |indexes| - 1)
    requires var n := |indexes| - 1; indexes[n].unique ==> !Agrees(table, shapes[n + 1].contents, indexes[n].columns)
    ensures AgreeFrom(indexes, shapes, table, 0, |indexes|) <==> !indexes[|indexes| - 1].unique
  {
    hide Agrees;
  }

  lemma TwinFound(table: map<Bytes, Bytes>, part: map<Bytes, Bytes>, index: map<Bytes, Bytes>, c: Columns, k: Bytes,
                  x: Bytes)
    requires Agrees(part, index, c) && x in index && k in table && k !in part && StoredKey(c, table[k]) == Some(x)
    requires forall j :: j in part ==> j in table && table[j] == part[j]
    ensures HasTwins(c, table)
  {
    hide StoredKey;
    assert index[x] in table && StoredKey(c, table[index[x]]) == StoredKey(c, table[k]);
  }

  lemma IsFirst(names: seq<string>, column: string, i: nat)
    requires i <= |names| && (i < |names| ==> names[i] == column) && forall j :: 0 <= j < i ==> names[j] != column
    ensures FirstColumn(names, column) == i && (i < |names| <==> column in names)
  {
  }

  lemma ListsTable(keys: seq<Bytes>, values: seq<Bytes>, table: map<Bytes, Bytes>)
    requires Listing(keys, values, table, 0.0, 1.0)
    ensures |keys| == |values| && Sorted(keys)
    ensures forall j :: 0 <= j < |keys| ==> keys[j] in table && table[keys[j]] == values[j]
    ensures ListsKeys(keys, table)
  {
    hide Rank;
  }

  lemma NothingUpdated(where: Condition, expr: Expression, i: nat, table: map<Bytes, Bytes>, keys: seq<Bytes>)
    requires forall j :: 0 <= j < |keys| ==> keys[j] in table
    ensures UpdatedUpTo(where, expr, i, table, table, keys, 0) && Matched(where, table, keys, 0, {})
  {
  }

  lemma KeepsSame(pages: PageMap, pageSize: nat, w: nat, indexes: seq<Index>, row: Row)
    ensures Keeps(pages, pages, pageSize, w, indexes, row, false)
  {
    hide Ample;
  }

  lemma KeepsTrans(pages: PageMap, pages': PageMap, pages'': PageMap, pageSize: nat, w: nat, indexes: seq<Index>,
                   row: Row,
                   full: bool)
    requires Keeps(pages, pages', pageSize, w, indexes, row, false)
    requires Keeps(pages', pages'', pageSize, w, indexes, row, full)
    ensures Keeps(pages, pages'', pageSize, w, indexes, row, full)
  {
    hide Ample;
  }

  lemma EntryKeeps(pages: PageMap, pages': PageMap, pageSize: nat, w: nat, indexes: seq<Index>, i: nat, row: Row,
                   full: bool)
    requires i < |indexes| && StaysWithin(pages, pages', KeyBytes(indexes[i].columns, row), EncodeKey(0))
    requires full ==> Cramped(pages, pageSize, KeyBytes(indexes[i].columns, row), EncodeKey(0))
    ensures Keeps(pages, pages', pageSize, w, indexes, row, full)
  {
    hide Ample, StaysWithin, Cramped, KeyBytes, EncodeKey, ValuesWithin;
    forall u: nat, c: nat | Ample(pages, pageSize, w, u, c) && ColumnsWithin(indexes, c) && ValuesWithin(row, u)
      ensures Ample(pages', pageSize, w, u, c) && !full
    {
      KeyLength(indexes[i].columns, row, u, c);
      AmpleStays(pages, pages', pageSize, w, u, c, KeyBytes(indexes[i].columns, row), EncodeKey(0));
    }
  }

  lemma RowKeeps(pages: PageMap, pages': PageMap, pageSize: nat, indexes: seq<Index>, key: Bytes, row: Row, full: bool)
    requires |key| == 8 && StaysWithin(pages, pages', key, RowBytes(row))
    requires full ==> Cramped(pages, pageSize, key, RowBytes(row))
    ensures Keeps(pages, pages', pageSize, |row|, indexes, row, full)
  {
    hide Ample, StaysWithin, Cramped, RowBytes, ValuesWithin, ColumnsWithin;
    forall u: nat, c: nat | Ample(pages, pageSize, |row|, u, c) && ColumnsWithin(indexes, c) && ValuesWithin(row, u)
      ensures Ample(pages', pageSize, |row|, u, c) && !full
    {
      RowLength(row, u);
      AmpleStays(pages, pages', pageSize, |row|, u, c, key, RowBytes(row));
    }
  }

  lemma RowKeyLength(table: map<Bytes, Bytes>, key: Bytes)
    requires RowKeys(table) && key in table
    ensures |key| == 8
  {
    hide DecodeKey;
  }

  lemma RowWidth(table: map<Bytes, Bytes>, key: Bytes, original: Row, i: nat, updated: Row, width: nat)
    requires RowsFit(table, width) && key in table && Decoded(table[key]) == RowOk(original)
    requires Replaced(original, i, updated)
    ensures |updated| == width
  {
    hide Decoded;
  }

  lemma KeepsAllSame(pages: PageMap, pageSize: nat, w: nat, indexes: seq<Index>, table: map<Bytes, Bytes>,
                     expr: Expression)
    ensures KeepsAll(pages, pages, pageSize, w, indexes, table, expr, false)
  {
    hide Ample, YieldsWithin;
  }

  lemma KeepsAllTrans(pages: PageMap, pages': PageMap, pages'': PageMap, pageSize: nat, w: nat, indexes: seq<Index>,
                      table: map<Bytes, Bytes>, expr: Expression, full: bool)
    requires KeepsAll(pages, pages', pageSize, w, indexes, table, expr, false)
    requires KeepsAll(pages', pages'', pageSize, w, indexes, table, expr, full)
    ensures KeepsAll(pages, pages'', pageSize, w, indexes, table, expr, full)
  {
    hide Ample, YieldsWithin, RowsWithin, ColumnsWithin;
  }

  /** A row that an update computes has values of the table's rows and of the
      expression. */
  lemma UpdatedKeeps(pages: PageMap, pages': PageMap, pageSize: nat, w: nat, indexes: seq<Index>,
                     table: map<Bytes, Bytes>,
                     expr: Expression, key: Bytes, i: nat, full: bool)
    requires key in table && Decoded(table[key]).RowOk? && i < |Decoded(table[key]).row|
    requires expr(Decoded(table[key]).row).Some?
    requires var row := Decoded(table[key]).row;
      Keeps(pages, pages', pageSize, w, indexes, row[i := expr(row).value], full)
    ensures KeepsAll(pages, pages', pageSize, w, indexes, table, expr, full)
  {
    hide Ample, ColumnsWithin, Decoded, ValueBytes;
  }

  lemma KeepsIndexingSame(pages: PageMap, pageSize: nat, w: nat, on: seq<string>, table: map<Bytes, Bytes>)
    ensures KeepsIndexing(pages, pages, pageSize, w, on, table, false)
  {
    hide Ample;
  }

  lemma KeepsIndexingTrans(pages: PageMap, pages': PageMap, pages'': PageMap, pageSize: nat, w: nat, on: seq<string>,
                           table: map<Bytes, Bytes>, full: bool)
    requires KeepsIndexing(pages, pages', pageSize, w, on, table, false)
    requires KeepsIndexing(pages', pages'', pageSize, w, on, table, full)
    ensures KeepsIndexing(pages, pages'', pageSize, w, on, table, full)
  {
    hide Ample, RowsWithin;
  }

  lemma ScannedKeeps(pages: PageMap, pages': PageMap, pageSize: nat, w: nat, columns: Columns, table: map<Bytes, Bytes>,
                     k: Bytes, row: Row, full: bool)
    requires k in table && Decoded(table[k]) == RowOk(row)
    requires StaysWithin(pages, pages', KeyBytes(columns, row), EncodeKey(0))
    requires full ==> Cramped(pages, pageSize, KeyBytes(columns, row), EncodeKey(0))
    ensures KeepsIndexing(pages, pages', pageSize, w, columns.on, table, full)
  {
    hide Ample, StaysWithin, Cramped, KeyBytes, EncodeKey, ValuesWithin, Decoded;
    forall u: nat, c: nat | Ample(pages, pageSize, w, u, c) && |columns.on| <= c && RowsWithin(table, u)
      ensures Ample(pages', pageSize, w, u, c) && !full
    {
      KeyLength(columns, row, u, c);
      AmpleStays(pages, pages', pageSize, w, u, c, KeyBytes(columns, row), EncodeKey(0));
    }
  }

  /** What an update makes of a row: one column assigned where the condition holds,
      nothing where it does not; elsewhere the row cannot be updated. */
  lemma UpdateMeans(where: Condition, expr: Expression, i: nat, stored: Bytes, stored': Bytes)
    requires Computes(expr) && UpdatesTo(where, expr, i, stored, stored')
    ensures Decoded(stored).RowOk? &&
      var row := Decoded(stored).row;
      && (where(row) == Some(true) || where(row) == Some(false))
      && (where(row) == Some(false) ==> stored' == stored)
      && (where(row) == Some(true) ==>
            && i < |row| && expr(row).Some? && Decoded(stored').RowOk? && |Decoded(stored').row| == |row|
            && Decoded(stored').row[i] == AsStored(expr(row).value)
            && (forall c :: 0 <= c < |row| && c != i ==> Decoded(stored').row[c] == AsStored(row[c])))
  {
    hide Decoded, RowBytes, WellTyped, AsStored;
    var row := Decoded(stored).row;
    if where(row) == Some(true) {
      DecodedWellTyped(stored);
      StoredKeyOfRow(Columns(map[], []), row[i := expr(row).value]);
    }
  }

  lemma AllUpdating(where: Condition, expr: Expression, i: nat, was: map<Bytes, Bytes>, now: map<Bytes, Bytes>,
                    keys: seq<Bytes>, n: nat)
    requires UpdatedUpTo(where, expr, i, was, now, keys, n)
    ensures forall m :: 0 <= m < n ==>
              keys[m] in was && UpdatesTo(where, expr, i, was[keys[m]], UpdatedBytes(where, expr, i, was[keys[m]]))
  {
    hide UpdatedBytes;
  }

  lemma SkippedUnblocked(indexes: seq<Index>, column: string, where: Condition, expr: Expression, i: nat,
                         table: map<Bytes, Bytes>, key: Bytes)
    requires key in table && Decoded(table[key]).RowOk? && where(Decoded(table[key]).row) == Some(false)
    ensures Unblocked(indexes, column, where, expr, i, table, key)
  {
    hide Decoded, OtherHolds;
  }

  /** Unique indexes that agree after a row was updated did not block it. */
  lemma RowUnblocked(indexes: seq<Index>, shapes: seq<Shape>, column: string, where: Condition, expr: Expression,
                     i: nat,
                     table: map<Bytes, Bytes>, now: map<Bytes, Bytes>, keys: seq<Bytes>, n: nat)
    requires n < |keys| && ListsKeys(keys, table) && UpdatedUpTo(where, expr, i, table, now, keys, n + 1)
    requires AgreeFrom(indexes, shapes, now, 0, |indexes|)
    ensures Unblocked(indexes, column, where, expr, i, table, keys[n])
  {
    hide UpdatedUpTo, ListsKeys, PartlyUpdated, Agrees, Matches, StoredKey;
    PartlyIs(where, expr, i, table, now, keys, n, n + 1);
    forall j | 0 <= j < |indexes| && indexes[j].unique
      ensures !OtherHolds(indexes[j].columns, now, keys[n])
    {
      NoneOther(now, shapes[j + 1].contents, indexes[j].columns, keys[n]);
    }
  }

  lemma NoneOther(table: map<Bytes, Bytes>, index: map<Bytes, Bytes>, c: Columns, key: Bytes)
    requires Agrees(table, index, c)
    ensures !OtherHolds(c, table, key)
  {
    hide StoredKey;
  }

  lemma OthersDisagree(table: map<Bytes, Bytes>, index: map<Bytes, Bytes>, c: Columns, key: Bytes)
    requires OtherHolds(c, table, key)
    ensures !Agrees(table, index, c)
  {
    hide StoredKey;
  }

  /** The table when the update has come past keys[n], whether or not that row
      was to be rewritten. */
  lemma PartlyIs(where: Condition, expr: Expression, i: nat, table: map<Bytes, Bytes>, now: map<Bytes, Bytes>,
                 keys: seq<Bytes>, n: nat, done: nat)
    requires n < |keys| && ListsKeys(keys, table) && UpdatedUpTo(where, expr, i, table, now, keys, done)
    requires done == n + 1 ||
      (done == n && keys[n] in table && UpdatedBytes(where, expr, i, table[keys[n]]) == table[keys[n]])
    ensures now == PartlyUpdated(where, expr, i, table, keys[n])
  {
    hide UpdatedBytes, Rank, Decoded, Matches, Encodable;
    forall k | k in table
      ensures k in now
      ensures now[k] == if Rank(k) <= Rank(keys[n]) then UpdatedBytes(where, expr, i, table[k]) else table[k]
    {
      var m :| 0 <= m < |keys| && keys[m] == k;
      StrictlyBelow(keys, m, n);
      StrictlyBelow(keys, n, m);
    }
    assert now.Keys == table.Keys;
  }

  lemma ReasonMatches(where: Condition, expr: Expression, i: nat, stored: Bytes, why: Refusal)
    requires Reason(where, expr, i, stored, why) && why.NotMoved?
    ensures Matches(where, stored)
  {
    hide Decoded, Encodable;
  }

  /** A row that an update stops at before it was rewritten stays as it was. */
  lemma StoppedSame(where: Condition, expr: Expression, i: nat, stored: Bytes, why: Refusal)
    requires Reason(where, expr, i, stored, why) && !why.NoRoom? && !why.NotMoved?
    ensures UpdatedBytes(where, expr, i, stored) == stored
  {
    hide Decoded, Encodable, RowBytes;
  }

  lemma ListedBelow(keys: seq<Bytes>, table: map<Bytes, Bytes>, n: nat, k: Bytes) returns (m: nat)
    requires ListsKeys(keys, table) && n < |keys| && k in table && Rank(k) < Rank(keys[n])
    ensures m < n && keys[m] == k
  {
    hide Rank;
    m :| 0 <= m < |keys| && keys[m] == k;
    StrictlyBelow(keys, n, m);
  }

  lemma AllUnblocked(indexes: seq<Index>, column: string, where: Condition, expr: Expression, i: nat,
                     table: map<Bytes, Bytes>, keys: seq<Bytes>)
    requires ListsKeys(keys, table)
    requires forall m :: 0 <= m < |keys| ==> Unblocked(indexes, column, where, expr, i, table, keys[m])
    ensures forall k :: k in table ==> Unblocked(indexes, column, where, expr, i, table, k)
  {
    hide Unblocked, Sorted;
    forall k | k in table
      ensures Unblocked(indexes, column, where, expr, i, table, k)
    {
      var m :| 0 <= m < |keys| && keys[m] == k;
    }
  }

  lemma NextToUpdate(where: Condition, expr: Expression, i: nat, was: map<Bytes, Bytes>, now: map<Bytes, Bytes>,
                     keys: seq<Bytes>, n: nat, width: nat)
    requires UpdatedUpTo(where, expr, i, was, now, keys, n) && n < |keys| && RowsFit(now, width) && i < width
    ensures keys[n] in now && keys[n] in was && now[keys[n]] == was[keys[n]]
    ensures Decoded(was[keys[n]]).RowOk? && |Decoded(was[keys[n]]).row| == width
  {
  }

  lemma OneUpdated(where: Condition, expr: Expression, i: nat, was: map<Bytes, Bytes>, now: map<Bytes, Bytes>,
                   keys: seq<Bytes>, n: nat, matched: set<Bytes>, updated: Row)
    requires UpdatedUpTo(where, expr, i, was, now, keys, n) && n < |keys| && ListsKeys(keys, was)
    requires Matched(where, was, keys, n, matched) && Encodable(updated)
    requires var r := Decoded(was[keys[n]]);
      && r.RowOk? && i < |r.row| && where(r.row) == Some(true) && expr(r.row).Some?
      && updated == r.row[i := expr(r.row).value]
    ensures UpdatedUpTo(where, expr, i, was, now[keys[n] := RowBytes(updated)], keys, n + 1)
    ensures Matched(where, was, keys, n + 1, matched + {keys[n]}) && keys[n] !in matched
  {
    hide Rank, Decoded, RowBytes, Encodable;
    var now' := now[keys[n] := RowBytes(updated)];
    forall j | 0 <= j < |keys| && j != n
      ensures keys[j] != keys[n]
    {
      StrictlyBelow(keys, j, n);
      StrictlyBelow(keys, n, j);
    }
    forall k | k in matched + {keys[n]}
      ensures k in keys[..n + 1] && k in was && Matches(where, was[k])
    {
      PrefixGrows(keys, n, k);
    }
  }

  lemma OneSkipped(where: Condition, expr: Expression, i: nat, was: map<Bytes, Bytes>, now: map<Bytes, Bytes>,
                   keys: seq<Bytes>, n: nat, matched: set<Bytes>)
    requires UpdatedUpTo(where, expr, i, was, now, keys, n) && n < |keys|
    requires Matched(where, was, keys, n, matched)
    requires Decoded(was[keys[n]]).RowOk? && where(Decoded(was[keys[n]]).row) == Some(false)
    ensures UpdatedUpTo(where, expr, i, was, now, keys, n + 1) && Matched(where, was, keys, n + 1, matched)
  {
    hide Decoded, RowBytes, Encodable;
    forall k | k in matched
      ensures k in keys[..n + 1]
    {
      PrefixGrows(keys, n, k);
    }
  }

  lemma PrefixGrows(keys: seq<Bytes>, n: nat, k: Bytes)
    requires n < |keys|
    ensures k in keys[..n + 1] <==> k in keys[..n] || k == keys[n]
  {
    assert keys[..n + 1] == keys[..n] + [keys[n]];
  }

  lemma AllUpdated(where: Condition, expr: Expression, i: nat, was: map<Bytes, Bytes>, now: map<Bytes, Bytes>,
                   keys: seq<Bytes>, matched: set<Bytes>)
    requires UpdatedUpTo(where, expr, i, was, now, keys, |keys|) && Matched(where, was, keys, |keys|, matched)
    requires ListsKeys(keys, was)
    ensures now.Keys == was.Keys && forall k :: k in was ==> UpdatesTo(where, expr, i, was[k], now[k])
    ensures matched == set k | k in was && Matches(where, was[k])
  {
    hide UpdatesTo, Matches;
    forall k | k in was
      ensures UpdatesTo(where, expr, i, was[k], now[k]) && (Matches(where, was[k]) ==> k in matched)
    {
      var j :| 0 <= j < |keys| && keys[j] == k;
    }
  }

  /** updated is original with a well-typed value in column i. */
  ghost predicate Replaced(original: Row, i: nat, updated: Row) {
    i < |original| == |updated| && WellTyped(updated[i]) && updated == original[i := updated[i]]
  }

  lemma WellTypedBoth(stored: Bytes, original: Row, i: nat, updated: Row)
    requires Decoded(stored) == RowOk(original) && Replaced(original, i, updated)
    ensures AllWellTyped(original) && AllWellTyped(updated)
  {
    hide Decoded, WellTyped;
    DecodedWellTyped(stored);
  }

  lemma RowReplaced(table: map<Bytes, Bytes>, key: Bytes, width: nat, original: Row, i: nat, updated: Row)
    requires RowKeys(table) && RowsFit(table, width) && key in table && Decoded(table[key]) == RowOk(original)
    requires Replaced(original, i, updated) && AllWellTyped(updated) && Encodable(updated)
    ensures RowKeys(table[key := RowBytes(updated)]) && RowsFit(table[key := RowBytes(updated)], width)
  {
    hide DecodeKey, Decoded, RowBytes;
    StoredKeyOfRow(Columns(map[], []), updated);
  }

  lemma RowAppended(table: map<Bytes, Bytes>, rowID: int, row: Row, width: nat)
    requires RowKeys(table) && RowsFit(table, width) && 1 <= rowID < TWO_63
    requires AllWellTyped(row) && AllStorable(row) && |row| == width <= MAX_INT16
    ensures RowKeys(table[EncodeKey(rowID) := RowBytes(row)])
    ensures RowsFit(table[EncodeKey(rowID) := RowBytes(row)], width)
  {
    hide EncodeKey, DecodeKey, Decoded, RowBytes;
    KeyRoundTrip(rowID);
    StoredKeyOfRow(Columns(map[], []), row);
  }

  lemma StartsAgreeing(indexes: seq<Index>, shapes: seq<Shape>, shapes': seq<Shape>, table: map<Bytes, Bytes>,
                       table': map<Bytes, Bytes>, row: Row)
    requires AgreeFrom(indexes, shapes, table, 0, |indexes|) && EntriesNameRows(shapes)
    requires |shapes'| == |shapes| && forall i :: 0 < i < |shapes| ==> shapes'[i] == shapes[i]
    ensures AgreeFrom(indexes, shapes', table', 0, 0) && AgreeFrom(indexes, shapes', table, 0, |indexes|)
    ensures Unshared(indexes, table, row, 0) && EntriesNameRows(shapes')
  {
    hide Agrees;
  }

  /** One more index has the new row, or refused it for a reason. */
  lemma RowIndexed(indexes: seq<Index>, shapes: seq<Shape>, shapes': seq<Shape>, i: nat, table: map<Bytes, Bytes>,
                   rowID: int, row: Row, r: IndexResult)
    requires i < |indexes| && |shapes| == |indexes| + 1 == |shapes'| && shapes' == shapes[i + 1 := shapes'[i + 1]]
    requires AllWellTyped(row) && Encodable(row) && EncodeKey(rowID) !in table
    requires EntriesNameRows(shapes) && Unshared(indexes, table, row, i)
    requires Adds(indexes[i].columns, indexes[i].unique, shapes[i + 1].contents, rowID, row, r, shapes'[i + 1].contents)
    requires AgreeFrom(indexes, shapes, table[EncodeKey(rowID) := RowBytes(row)], 0, i)
    requires AgreeFrom(indexes, shapes, table, i, |indexes|)
    ensures r.Indexed? ==> AgreeFrom(indexes, shapes', table[EncodeKey(rowID) := RowBytes(row)], 0, i + 1)
    ensures r.Indexed? ==> AgreeFrom(indexes, shapes', table, i + 1, |indexes|)
    ensures r.Indexed? ==> EntriesNameRows(shapes') && Unshared(indexes, table, row, i + 1)
    ensures r.Duplicate? ==> indexes[i].unique && SharesKey(indexes[i].columns, table, row)
    ensures !r.NotFound?
  {
    hide Agrees, KeyOf, StoredKey, EncodeKey, RowBytes;
    var c, index := indexes[i].columns, shapes[i + 1].contents;
    if indexes[i].unique && KeyOf(c, row).Some? {
      var x := KeyOf(c, row).value;
      assert Agrees(table, index, c);
      StoredKeyOfRow(c, row);
      if x in index {
        KeyIsShared(table, index, c, row);
      } else {
        AgreesInsert(table, index, c, EncodeKey(rowID), RowBytes(row), x);
        KeyIsNew(table, index, c, row);
      }
    }
  }

  lemma RowRefused(indexes: seq<Index>, shapes: seq<Shape>, shapes': seq<Shape>, i: nat, table: map<Bytes, Bytes>,
                   rowID: int, row: Row, r: IndexResult)
    requires i < |indexes| && |shapes| == |indexes| + 1 == |shapes'| && shapes' == shapes[i + 1 := shapes'[i + 1]]
    requires EntriesNameRows(shapes) && !r.Indexed? && !r.PageFull?
    requires Adds(indexes[i].columns, indexes[i].unique, shapes[i + 1].contents, rowID, row, r, shapes'[i + 1].contents)
    requires AgreeFrom(indexes, shapes, table[EncodeKey(rowID) := RowBytes(row)], 0, i)
    requires AgreeFrom(indexes, shapes, table, i, |indexes|)
    ensures AgreeFrom(indexes, shapes', table[EncodeKey(rowID) := RowBytes(row)], 0, i)
    ensures AgreeFrom(indexes, shapes', table, i, |indexes|) && EntriesNameRows(shapes')
  {
    hide Agrees, KeyOf, EncodeKey, RowBytes;
  }

  /** The row stays without the entries of the indexes from i on. */
  lemma AppendedAgreement(indexes: seq<Index>, shapes: seq<Shape>, table: map<Bytes, Bytes>, key: Bytes, stored: Bytes,
                          i: nat)
    requires i <= |indexes| && key !in table
    requires AgreeFrom(indexes, shapes, table[key := stored], 0, i) && AgreeFrom(indexes, shapes, table, i, |indexes|)
    ensures AgreeFrom(indexes, shapes, table[key := stored], 0, |indexes|) <==> NoUnique(indexes, i)
  {
    hide Agrees;
    forall j | i <= j < |indexes| && indexes[j].unique
      ensures !Agrees(table[key := stored], shapes[j + 1].contents, indexes[j].columns)
    {
      DisagreesAppended(table, shapes[j + 1].contents, indexes[j].columns, key, stored);
    }
  }

  /** A row shares a key with a row of the table exactly if it agrees with one in
      every column of the index, where all rows have values of the same types. */
  lemma SharesByColumns(c: Columns, table: map<Bytes, Bytes>, row: Row)
    requires forall k :: k in table ==> Decoded(table[k]).RowOk? && SameTypesOn(c, Decoded(table[k]).row, row)
    ensures SharesKey(c, table, row) <==> exists k :: k in table && AgreeOn(c, Decoded(table[k]).row, row)
  {
    hide KeyOf, Decoded, AgreeOn, SameTypesOn;
    forall k | k in table
      ensures StoredKey(c, table[k]).Some?
      ensures StoredKey(c, table[k]) == KeyOf(c, row) <==> AgreeOn(c, Decoded(table[k]).row, row)
    {
      KeysOfColumns(c, Decoded(table[k]).row, row);
    }
  }

  /** A unique index that agrees with its table refuses a row as a duplicate exactly
      if some row of the table agrees with it in every column of the index. */
  lemma DuplicateByColumns(c: Columns, table: map<Bytes, Bytes>, index: map<Bytes, Bytes>, id: int, row: Row,
                           r: IndexResult, index': map<Bytes, Bytes>)
    requires Agrees(table, index, c) && Adds(c, true, index, id, row, r, index') && Indexable(c, row)
    requires forall k :: k in table ==> Decoded(table[k]).RowOk? && SameTypesOn(c, Decoded(table[k]).row, row)
    ensures r.Duplicate? <==> exists k :: k in table && AgreeOn(c, Decoded(table[k]).row, row)
  {
    hide KeyOf, Decoded, AgreeOn, SameTypesOn, StoredKey;
    KeyIsMixed(c, row);
    SharesByColumns(c, table, row);
    if KeyOf(c, row).value in index {
      KeyIsShared(table, index, c, row);
    } else {
      KeyIsNew(table, index, c, row);
    }
  }

  lemma SharedIsTwin(c: Columns, table: map<Bytes, Bytes>, key: Bytes, row: Row)
    requires SharesKey(c, table, row) && key !in table && AllWellTyped(row) && Encodable(row)
    ensures HasTwins(c, table[key := RowBytes(row)])
  {
    hide KeyOf, StoredKey, RowBytes;
    StoredKeyOfRow(c, row);
    var k :| k in table && StoredKey(c, table[k]).Some? && StoredKey(c, table[k]) == KeyOf(c, row);
    var table' := table[key := RowBytes(row)];
    assert k in table' && key in table' && StoredKey(c, table'[k]) == StoredKey(c, table'[key]);
  }

  lemma EntryMoved(indexes: seq<Index>, shapes: seq<Shape>, shapes': seq<Shape>, j: nat, table: map<Bytes, Bytes>,
                   key: Bytes, i: nat, original: Row, updated: Row)
    requires j < |indexes| && |shapes| == |indexes| + 1 == |shapes'| && shapes' == shapes[j + 1 := shapes'[j + 1]]
    requires EntriesNameRows(shapes) && key in table && Decoded(table[key]) == RowOk(original)
    requires AllWellTyped(updated) && Encodable(updated)
    requires Moves(indexes[j].columns, indexes[j].unique, shapes[j + 1].contents, original, updated, Indexed,
                   shapes'[j + 1].contents)
    requires AgreeFrom(indexes, shapes, table[key := RowBytes(updated)], 0, j)
    requires AgreeFrom(indexes, shapes, table, j, |indexes|)
    ensures AgreeFrom(indexes, shapes', table[key := RowBytes(updated)], 0, j + 1)
    ensures AgreeFrom(indexes, shapes', table, j + 1, |indexes|) && EntriesNameRows(shapes')
  {
    hide Agrees, KeyOf, RowBytes, Decoded;
    var c, index := indexes[j].columns, shapes[j + 1].contents;
    if indexes[j].unique {
      assert Agrees(table, index, c);
      StoredKeyOfRow(c, updated);
      AgreesUpdate(table, index, c, key, RowBytes(updated), KeyOf(c, original).value, KeyOf(c, updated).value);
    }
  }

  /** What a refused move leaves, and why a unique index refuses. */
  lemma EntryRefused(indexes: seq<Index>, shapes: seq<Shape>, shapes': seq<Shape>, j: nat, table: map<Bytes, Bytes>,
                     key: Bytes, i: nat, original: Row, updated: Row, r: IndexResult)
    requires j < |indexes| && |shapes| == |indexes| + 1 == |shapes'| && shapes' == shapes[j + 1 := shapes'[j + 1]]
    requires EntriesNameRows(shapes) && key in table && Decoded(table[key]) == RowOk(original) && !r.Indexed?
    requires Replaced(original, i, updated) && AllWellTyped(updated) && Encodable(updated)
    requires Moves(indexes[j].columns, indexes[j].unique, shapes[j + 1].contents, original, updated, r,
                   shapes'[j + 1].contents)
    requires AgreeFrom(indexes, shapes, table[key := RowBytes(updated)], 0, j)
    requires AgreeFrom(indexes, shapes, table, j, |indexes|)
    ensures AgreeFrom(indexes, shapes', table[key := RowBytes(updated)], 0, j)
    ensures AgreeFrom(indexes, shapes', table, j + 1, |indexes|)
    ensures !r.PageFull? ==> EntriesNameRows(shapes')
    ensures r.Duplicate? ==> indexes[j].unique && OtherHolds(indexes[j].columns, table[key := RowBytes(updated)], key)
    ensures indexes[j].unique ==> r.Duplicate? || r.PageFull?
  {
    hide Agrees, KeyOf, RowBytes, Decoded;
    var c, index := indexes[j].columns, shapes[j + 1].contents;
    if indexes[j].unique {
      assert Agrees(table, index, c);
      StoredKeyOfRow(c, updated);
      EntryKnown(table, index, c, key, original);
      KeyStillThere(c, original, updated);
      if r.Duplicate? {
        EntryTaken(table, index, c, key, original, updated);
      }
    }
  }

  lemma EntryKnown(table: map<Bytes, Bytes>, index: map<Bytes, Bytes>, c: Columns, key: Bytes, original: Row)
    requires Agrees(table, index, c) && key in table && Decoded(table[key]) == RowOk(original)
    ensures KeyOf(c, original).Some? && KeyOf(c, original).value in index && index[KeyOf(c, original).value] == key
  {
    hide KeyOf, Decoded;
  }

  lemma EntryTaken(table: map<Bytes, Bytes>, index: map<Bytes, Bytes>, c: Columns, key: Bytes, original: Row,
                   updated: Row)
    requires Agrees(table, index, c) && key in table && Decoded(table[key]) == RowOk(original)
    requires KeyOf(c, original).Some? && KeyOf(c, updated).Some? && StoredKey(c, RowBytes(updated)) == KeyOf(c, updated)
    requires KeyOf(c, updated).value in index - {KeyOf(c, original).value}
    ensures OtherHolds(c, table[key := RowBytes(updated)], key)
  {
    hide KeyOf, Decoded, RowBytes;
    var k, table' := index[KeyOf(c, updated).value], table[key := RowBytes(updated)];
    assert k in table && StoredKey(c, table[k]) == KeyOf(c, updated) && k != key;
    assert k in table' && StoredKey(c, table'[k]) == StoredKey(c, table'[key]);
  }

  /** After a row stopped at index j, the later indexes agree with the table as it
      was before that row. */
  lemma MovedAgreement(indexes: seq<Index>, shapes: seq<Shape>, table: map<Bytes, Bytes>, key: Bytes, original: Row,
                       updated: Row, j: nat)
    requires j < |indexes| && key in table && Decoded(table[key]) == RowOk(original)
    requires AllWellTyped(updated) && Encodable(updated)
    requires AgreeFrom(indexes, shapes, table[key := RowBytes(updated)], 0, j)
    requires AgreeFrom(indexes, shapes, table, j + 1, |indexes|)
    requires indexes[j].unique ==> !Agrees(table[key := RowBytes(updated)], shapes[j + 1].contents, indexes[j].columns)
    ensures AgreeFrom(indexes, shapes, table[key := RowBytes(updated)], 0, |indexes|) <==>
      Harmless(indexes, j, original, updated)
  {
    hide Agrees, KeyOf, RowBytes, Decoded, Encodable;
    forall h | j < h < |indexes| && indexes[h].unique
      ensures Agrees(table[key := RowBytes(updated)], shapes[h + 1].contents, indexes[h].columns) <==>
              KeyOf(indexes[h].columns, original) == KeyOf(indexes[h].columns, updated)
    {
      StoredKeyOfRow(indexes[h].columns, updated);
      AgreesUnmoved(table, shapes[h + 1].contents, indexes[h].columns, key, RowBytes(updated));
    }
  }

  lemma EntryUnmoved(indexes: seq<Index>, shapes: seq<Shape>, j: nat, table: map<Bytes, Bytes>, key: Bytes,
                     names: seq<string>, i: nat, original: Row, updated: Row)
    requires j < |indexes| && OnColumns(indexes, names) && i < |names| && names[i] !in indexes[j].columns.on
    requires key in table && Decoded(table[key]) == RowOk(original) && Replaced(original, i, updated)
    requires AllWellTyped(updated) && Encodable(updated)
    requires AgreeFrom(indexes, shapes, table[key := RowBytes(updated)], 0, j)
    requires AgreeFrom(indexes, shapes, table, j, |indexes|)
    ensures AgreeFrom(indexes, shapes, table[key := RowBytes(updated)], 0, j + 1)
    ensures AgreeFrom(indexes, shapes, table, j + 1, |indexes|)
  {
    hide Agrees, KeyOf, RowBytes, Decoded;
    var c := indexes[j].columns;
    forall name | name in c.on && name in c.ordinals
      ensures c.ordinals[name] != i
    {
      OrdinalsName(names, name);
    }
    KeyOfOtherColumn(c, original, i, updated[i]);
    StoredKeyOfRow(c, updated);
    if indexes[j].unique {
      AgreesUnmoved(table, shapes[j + 1].contents, c, key, RowBytes(updated));
    }
  }

  lemma KeyIsShared(table: map<Bytes, Bytes>, index: map<Bytes, Bytes>, c: Columns, row: Row)
    requires Agrees(table, index, c) && KeyOf(c, row).Some? && KeyOf(c, row).value in index
    ensures SharesKey(c, table, row)
  {
    hide KeyOf, StoredKey;
    assert index[KeyOf(c, row).value] in table;
  }

  lemma KeyIsNew(table: map<Bytes, Bytes>, index: map<Bytes, Bytes>, c: Columns, row: Row)
    requires Agrees(table, index, c) && KeyOf(c, row).Some? && KeyOf(c, row).value !in index
    ensures forall k :: k in table ==> StoredKey(c, table[k]) != KeyOf(c, row)
  {
    hide KeyOf, StoredKey;
  }

  lemma RowKeysLong(m: map<Bytes, Bytes>)
    requires RowKeys(m)
    ensures forall k :: k in m ==> 8 <= |k|
  {
    hide DecodeKey;
  }

  lemma FreshRowID(pages: PageMap, s: Shape, root: PageID, rowID: int)
    requires TreeOk(pages, s, root, {}) && RowKeys(s.contents) && AboveAll(rowID, s.contents)
    requires ProbeLeafEmpty(pages, s) ==> rowID == 1
    requires !ProbeLeafEmpty(pages, s) ==> exists k :: IsGreatest(k, s.contents) && rowID == ToInt64(DecodeKey(k) + 1)
    ensures 1 <= rowID < TWO_63 && EncodeKey(rowID) !in s.contents
    ensures forall m :: 0 <= m && UpToID(s.contents, m) ==> rowID <= m + 1
  {
    hide TreeOk, EncodeKey, DecodeKey, Rank, ProbeLeafEmpty;
    if !ProbeLeafEmpty(pages, s) {
      var k :| IsGreatest(k, s.contents) && rowID == ToInt64(DecodeKey(k) + 1);
    }
    KeyRoundTrip(rowID);
  }

  lemma ForestTree(pages: PageMap, next: PageID, shapes: seq<Shape>, roots: seq<PageID>, i: nat)
    requires Forest(pages, next, shapes, roots) && i < |shapes|
    ensures TreeOk(pages, shapes[i], roots[i], {}) && forall p :: p in shapes[i].nodes ==> 0 <= p < next
  {
    hide TreeOk;
  }

  /* ---- an update that its own order refuses ---- */

  /** Adds one to the first column. */
  function OneMore(row: Row): Option<Value> {
    if row != [] && row[0].Int? && row[0].i + 1 < TWO_63 then Some(Int(row[0].i + 1)) else None
  }

  function Always(row: Row): Option<bool> {
    Some(true)
  }

  const ON_X: Columns := Columns(map["x" := 0], ["x"])

  function OneAndTwo(): map<Bytes, Bytes> {
    map[EncodeKey(1) := RowBytes([Int(1)]), EncodeKey(2) := RowBytes([Int(2)])]
  }

  /** Over rows 1 and 2 with a unique index on x, setting x to x + 1 is refused at
      the first row, although no two rows of the finished table would share a key. */
  lemma IncrementBlocked()
    ensures Blocked(ON_X, Always, OneMore, 0, OneAndTwo(), EncodeKey(1))
    ensures !HasTwins(ON_X, PartlyUpdated(Always, OneMore, 0, OneAndTwo(), EncodeKey(2)))
  {
    hide RowBytes, EncodeKey, StoredKey, UpdatedBytes, Decoded, Rank, MixedKey;
    var table := OneAndTwo();
    KeyOrder(1, 2);
    Incremented(1);
    Incremented(2);
    OnesKey(3);
    KeyOfInts(2, 3);
    var half := PartlyUpdated(Always, OneMore, 0, table, EncodeKey(1));
    var full := PartlyUpdated(Always, OneMore, 0, table, EncodeKey(2));
    assert EncodeKey(1) in table && EncodeKey(2) in table && EncodeKey(1) != EncodeKey(2);
    assert half[EncodeKey(1)] == RowBytes([Int(2)]) == half[EncodeKey(2)];
    assert full[EncodeKey(1)] == RowBytes([Int(2)]) && full[EncodeKey(2)] == RowBytes([Int(3)]);
    assert EncodeKey(2) in half && StoredKey(ON_X, half[EncodeKey(2)]) == StoredKey(ON_X, half[EncodeKey(1)]);
    assert forall k :: k in full ==> k == EncodeKey(1) || k == EncodeKey(2);
  }

  lemma OnesKey(i: int)
    requires 1 <= i <= 3
    ensures Decoded(RowBytes([Int(i)])) == RowOk([Int(i)])
    ensures StoredKey(ON_X, RowBytes([Int(i)])) == Some(MixedKey([Int(i)]))
  {
    hide RowBytes, Decoded, KeyParts;
    StoredKeyOfRow(ON_X, [Int(i)]);
    assert RowAsStored([Int(i)]) == [Int(i)];
    assert Projected(ON_X, [Int(i)]) == [Int(i)];
  }

  lemma Incremented(i: int)
    requires 1 <= i <= 2
    ensures Decoded(RowBytes([Int(i)])) == RowOk([Int(i)]) && Matches(Always, RowBytes([Int(i)]))
    ensures StoredKey(ON_X, RowBytes([Int(i)])) == Some(MixedKey([Int(i)]))
    ensures UpdatedBytes(Always, OneMore, 0, RowBytes([Int(i)])) == RowBytes([Int(i + 1)])
  {
    hide RowBytes, Decoded, MixedKey;
    OnesKey(i);
    assert [Int(i)][0 := Int(i + 1)] == [Int(i + 1)];
  }

  lemma KeyOfInts(i: int, j: int)
    requires 0 <= i < j < TWO_63
    ensures MixedKey([Int(i)]) != MixedKey([Int(j)])
  {
    hide KeyParts;
    KeysTellApart([Int(i)], [Int(j)]);
    assert !SameKeyPart([Int(i)][0], [Int(j)][0]);
  }
}

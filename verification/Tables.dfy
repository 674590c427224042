/** Runs of insertions into a table, and full scans of one. */
module Tables {
  import opened Bytes
  import opened Pages
  import opened TreeShape
  import opened TreeFacts
  import opened TreeRoom
  import opened BTree
  import opened Cursors

  /** The table that holds rows 1, 2, ... in the order they are listed. */
  ghost function RowTable(rows: seq<Bytes>): map<Bytes, Bytes> {
    if rows == [] then map[] else RowTable(rows[..|rows| - 1])[EncodeKey(|rows|) := rows[|rows| - 1]]
  }

  lemma {:induction false} RowTableEntries(rows: seq<Bytes>)
    requires |rows| < TWO_63
    ensures forall i :: 1 <= i <= |rows| ==>
      EncodeKey(i) in RowTable(rows) && RowTable(rows)[EncodeKey(i)] == rows[i - 1]
    ensures forall k :: k in RowTable(rows) ==> |k| == 8 && 1 <= DecodeKey(k) <= |rows|
  {
    hide EncodeKey, DecodeKey;
    if rows != [] {
      var n := |rows|;
      RowTableEntries(rows[..n - 1]);
      KeyRoundTrip(n);
      forall i | 1 <= i <= n
        ensures EncodeKey(i) in RowTable(rows) && RowTable(rows)[EncodeKey(i)] == rows[i - 1]
      {
        KeyOrder(i, n);
      }
    }
  }

  lemma GreatestRow(rows: seq<Bytes>, k: Bytes)
    requires rows != [] && |rows| < TWO_63 - 1 && IsGreatest(k, RowTable(rows))
    ensures 8 <= |k| && DecodeKey(k) == |rows|
  {
    hide EncodeKey, DecodeKey, Rank, RowTable, ToInt64;
    RowTableEntries(rows);
    KeyOfDecoded(k);
    assert EncodeKey(|rows|) in RowTable(rows);
    KeyOrder(DecodeKey(k), |rows|);
  }

  lemma SmallInt64(i: int)
    requires 0 <= i < TWO_63
    ensures ToInt64(i) == i
  {
  }

  lemma NextRow(rows: seq<Bytes>, rowID: int)
    requires |rows| < TWO_63 - 1
    requires rows == [] ==> rowID == 1
    requires rows != [] ==> exists k :: IsGreatest(k, RowTable(rows)) && 8 <= |k| && rowID == ToInt64(DecodeKey(k) + 1)
    ensures rowID == |rows| + 1
  {
    hide EncodeKey, DecodeKey, Rank, RowTable, IsGreatest, ToInt64;
    if rows != [] {
      var k :| IsGreatest(k, RowTable(rows)) && 8 <= |k| && rowID == ToInt64(DecodeKey(k) + 1);
      GreatestRow(rows, k);
      SmallInt64(DecodeKey(k) + 1);
    }
  }

  /** Appending to a table that was never deleted from: the new row gets the
      next ID and no row is overwritten. */
  method AppendRow(tree: Tree, ghost rows: seq<Bytes>, row: Bytes) returns (rowID: int, saved: bool)
    requires tree.Valid() && Dense(tree.pager.pages, tree.shape, tree.rootID)
    requires tree.shape.contents == RowTable(rows) && |rows| < TWO_63 - 1
    modifies tree`shape, tree.pager`pages, tree.pager`nextID
    ensures rowID == |rows| + 1 && EncodeKey(rowID) !in RowTable(rows)
    ensures saved ==> tree.Valid() && Dense(tree.pager.pages, tree.shape, tree.rootID)
    ensures saved ==> tree.shape.contents == RowTable(rows + [row])
    ensures saved <==>
      old(HasRoom(tree.pager.pages, tree.shape, tree.rootID, EncodeKey(rowID), row, tree.pager.pageSize))
    ensures StaysWithin(old(tree.pager.pages), tree.pager.pages, EncodeKey(rowID), row)
  {
    hide HasRoom, StaysWithin;
    hide TreeOk, Rank, Dense, EncodeKey, DecodeKey, Pager.Tidy, ProbeLeafEmpty;
    RowTableEntries(rows);
    ghost var empty := tree.shape.contents == map[];
    if rows != [] {
      assert EncodeKey(1) in RowTable(rows);
      DenseTailFilled(tree.pager.pages, tree.shape, tree.rootID);
    } else {
      EmptyProbeLeaf(tree.pager.pages, tree.shape, tree.rootID);
    }
    rowID, saved := tree.InsertNext(row);
    NextRow(rows, rowID);
    assert EncodeKey(rowID) !in RowTable(rows) by {
      KeyRoundTrip(rowID);
    }
    assert (rows + [row])[..|rows|] == rows;
  }

  lemma EmptyProbeLeaf(pages: PageMap, s: Shape, root: PageID)
    requires TreeOk(pages, s, root, {}) && s.contents == map[]
    ensures ProbeLeafEmpty(pages, s)
  {
    hide InternalOk, Layout, Rank;
    var p := PageCovering(pages, s, root, 0, Rank(LAST_PROBE));
    assert Load(pages, p).keys == [] by {
      assert LeafOk(Load(pages, p), s, s.nodes[p], MAX_CHILDREN - 1);
      HasFirst(Load(pages, p).keys);
    }
  }

  /** Bounds that the pages and the rows keep and that leave room on every page. */
  ghost predicate ShortRows(pages: PageMap, rows: seq<Bytes>, pageSize: nat) {
    exists k: nat, v: nat :: ShortAs(pages, rows, pageSize, k, v)
  }

  ghost predicate ShortAs(pages: PageMap, rows: seq<Bytes>, pageSize: nat, k: nat, v: nat) {
    && 8 <= k && Within(pages, k, v) && Roomy(pageSize, k, v)
    && (forall i :: 0 <= i < |rows| ==> |rows[i]| <= v)
  }

  /** n insertions into an empty table get the IDs 1..n in order, and All gives
      the rows back in insertion order. Short rows are never refused. */
  method FillTable(tree: Tree, rows: seq<Bytes>) returns (saved: bool, listed: seq<Bytes>)
    requires tree.Valid() && tree.shape.contents == map[] && Dense(tree.pager.pages, tree.shape, tree.rootID)
    requires |rows| < TWO_63
    modifies tree`shape, tree.pager`pages, tree.pager`nextID
    ensures saved ==> tree.Valid() && tree.shape.contents == RowTable(rows)
    ensures saved ==> listed == rows
    ensures old(ShortRows(tree.pager.pages, rows, tree.pager.pageSize)) ==> saved
  {
    hide TreeOk, Rank, Dense, EncodeKey, DecodeKey, Listing, Within, HasRoom, StaysWithin, Roomy;
    listed := [];
    var i := 0;
    ghost var short := ShortRows(tree.pager.pages, rows, tree.pager.pageSize);
    ghost var k: nat, v: nat := 0, 0;
    if short {
      k, v :| ShortAs(tree.pager.pages, rows, tree.pager.pageSize, k, v);
    }
    while i < |rows|
      invariant i <= |rows|
      invariant tree.Valid() && Dense(tree.pager.pages, tree.shape, tree.rootID)
      invariant tree.shape.contents == RowTable(rows[..i])
      invariant short ==> ShortAs(tree.pager.pages, rows, tree.pager.pageSize, k, v)
    {
      ghost var pages0, s0 := tree.pager.pages, tree.shape;
      var rowID;
      rowID, saved := AppendRow(tree, rows[..i], rows[i]);
      if short {
        ShortFits(pages0, s0, tree.rootID, rows, i, rowID, tree.pager.pageSize, k, v, tree.pager.pages);
      }
      if !saved {
        return;
      }
      assert rows[..i] + [rows[i]] == rows[..i + 1];
      i := i + 1;
    }
    assert rows[..i] == rows;
    var keys, values := tree.All();
    NoEmptyRowKey(rows);
    ListsInOrder(keys, values, rows);
    saved, listed := true, values;
  }

  lemma ShortFits(pages: PageMap, s: Shape, root: PageID, rows: seq<Bytes>, i: nat, rowID: int, pageSize: nat,
                  k: nat, v: nat, pages': PageMap)
    requires TreeOk(pages, s, root, {}) && ShortAs(pages, rows, pageSize, k, v) && i < |rows|
    requires StaysWithin(pages, pages', EncodeKey(rowID), rows[i])
    ensures HasRoom(pages, s, root, EncodeKey(rowID), rows[i], pageSize)
    ensures ShortAs(pages', rows, pageSize, k, v)
  {
    hide TreeOk, HasRoom, Within, Roomy, EncodeKey;
    WithinHasRoom(pages, s, root, EncodeKey(rowID), rows[i], pageSize, k, v);
  }

  function RowIDs(n: nat): (keys: seq<Bytes>)
    ensures |keys| == n
  {
    seq(n, i => EncodeKey(i + 1))
  }

  lemma NoEmptyRowKey(rows: seq<Bytes>)
    requires |rows| < TWO_63
    ensures [] !in RowTable(rows)
  {
    hide EncodeKey, DecodeKey, RowTable;
    RowTableEntries(rows);
  }

  lemma ListsInOrder(keys: seq<Bytes>, values: seq<Bytes>, rows: seq<Bytes>)
    requires |rows| < TWO_63 && Listing(keys, values, RowTable(rows), 0.0, 1.0)
    ensures keys == RowIDs(|rows|) && values == rows
  {
    hide EncodeKey, DecodeKey, Rank, RowTable, Sorted;
    RowTableEntries(rows);
    var ids := RowIDs(|rows|);
    RowIDsSorted(|rows|);
    forall k | k in RowTable(rows)
      ensures k in ids
    {
      InRowIDs(k, |rows|);
    }
    ListingUnique(keys, values, ids, rows, RowTable(rows), 0.0, 1.0);
  }

  lemma RowIDsSorted(n: nat)
    requires n < TWO_63
    ensures Sorted(RowIDs(n))
  {
    hide EncodeKey, Rank;
    forall i, j | 0 <= i < j < n
      ensures Rank(RowIDs(n)[i]) < Rank(RowIDs(n)[j])
    {
      KeyOrder(i + 1, j + 1);
    }
  }

  lemma InRowIDs(k: Bytes, n: nat)
    requires |k| == 8 && 1 <= DecodeKey(k) <= n
    ensures k in RowIDs(n)
  {
    hide EncodeKey, DecodeKey;
    KeyOfDecoded(k);
    assert RowIDs(n)[DecodeKey(k) - 1] == k;
  }

  /** A full scan runs a cursor from the first key to the last one. It visits
      every entry of a tree without emptied leaves in key order. On a table it
      does so exactly while the leaf of the highest key has not been emptied;
      from then on it finds no rows at all. */
  method FullScan(tree: Tree) returns (keys: seq<Bytes>, values: seq<Bytes>)
    requires tree.Valid() && [] !in tree.shape.contents
    ensures Dense(tree.pager.pages, tree.shape, tree.rootID) ==> Listing(keys, values, tree.shape.contents, 0.0, 1.0)
    ensures RowKeys(tree.shape.contents) ==>
      (Listing(keys, values, tree.shape.contents, 0.0, 1.0) <==>
       tree.shape.contents == map[] || !ProbeLeafEmpty(tree.pager.pages, tree.shape))
    ensures RowKeys(tree.shape.contents) && ProbeLeafEmpty(tree.pager.pages, tree.shape) ==> keys == []
  {
    hide TreeOk, Rank, Dense, Listing, ScanOf, Standing, RowKeys, ProbeLeafEmpty, IsGreatest, EncodeKey;
    var first := tree.FirstKey();
    var last := tree.LastKey();
    var cursor := new Cursor(tree, first, last);
    keys, values := [], [];
    ghost var seen := 0;
    var ok := true;
    while ok
      invariant cursor.Valid() && cursor.keys == keys && cursor.values == values
      invariant cursor.tree == tree && cursor.start == first && cursor.end == last && fresh(cursor)
      invariant !ok ==> ScanOf(keys, values, tree.shape.contents, first, last)
      decreases Unseen(tree.shape.contents, keys), ok
    {
      var k, v;
      k, v, ok := cursor.Next();
      if ok {
        OneMoreSeen(tree.pager.pages, tree.shape, cursor, keys, values, k, v);
        keys, values := keys + [k], values + [v];
      }
    }
    if Dense(tree.pager.pages, tree.shape, tree.rootID) {
      if tree.shape.contents != map[] {
        DenseTailFilled(tree.pager.pages, tree.shape, tree.rootID);
        ScanIsAll(keys, values, tree.shape.contents, first, last);
      } else {
        ScanOfNothing(keys, values, first, last);
      }
    }
    if RowKeys(tree.shape.contents) {
      RowScan(keys, values, tree.shape.contents, first, last, ProbeLeafEmpty(tree.pager.pages, tree.shape));
    }
  }

  lemma RowScan(keys: seq<Bytes>, values: seq<Bytes>, m: map<Bytes, Bytes>, first: Bytes, last: Bytes, emptied: bool)
    requires ScanOf(keys, values, m, first, last) && RowKeys(m)
    requires forall k :: k in m ==> Rank(first) <= Rank(k)
    requires if emptied then last == EncodeKey(0) else IsGreatest(last, m)
    ensures Listing(keys, values, m, 0.0, 1.0) <==> m == map[] || !emptied
    ensures emptied ==> keys == []
  {
    hide Rank, EncodeKey, RowKeys;
    ZeroBelowRows(m);
    if !emptied {
      ScanIsAll(keys, values, m, first, last);
    } else {
      NothingUpToZero(keys, values, m, first);
      if m == map[] {
        ScanOfNothing(keys, values, first, last);
      }
    }
  }

  lemma NoneAbove(keys: seq<Bytes>, values: seq<Bytes>, m: map<Bytes, Bytes>, first: Bytes, last: Bytes)
    requires forall k :: k in m ==> Rank(last) < Rank(k)
    ensures ScanOf(keys, values, m, first, last) ==> keys == []
  {
    hide Rank, Sorted;
    if keys != [] {
      var k := keys[0];
      if k in m {
        assert Rank(last) < Rank(k);
      }
    }
  }

  lemma NothingUpToZero(keys: seq<Bytes>, values: seq<Bytes>, m: map<Bytes, Bytes>, first: Bytes)
    requires ScanOf(keys, values, m, first, EncodeKey(0))
    requires forall k :: k in m ==> Rank(EncodeKey(0)) < Rank(k)
    ensures keys == [] && (m != map[] ==> !Listing(keys, values, m, 0.0, 1.0))
  {
    hide EncodeKey, Sorted;
    NoneAbove(keys, values, m, first, EncodeKey(0));
    if m != map[] {
      var k :| k in m;
      assert 0.0 <= Rank(k) < 1.0;
    }
  }

  ghost function Unseen(m: map<Bytes, Bytes>, keys: seq<Bytes>): set<Bytes> {
    set k | k in m && k !in keys
  }

  lemma OneMoreSeen(pages: PageMap, s: Shape, c: Cursor, keys: seq<Bytes>, values: seq<Bytes>, k: Bytes, v: Bytes)
    requires Standing(pages, s, c.leaf, c.idx, true, keys + [k], values + [v], c.start, c.end)
    ensures Unseen(s.contents, keys + [k]) < Unseen(s.contents, keys)
  {
    var keys' := keys + [k];
    assert keys'[|keys|] == k && k in s.contents;
    forall j | 0 <= j < |keys|
      ensures keys[j] != k
    {
      assert keys'[j] == keys[j];
      StrictlyBelow(keys', j, |keys|);
    }
    assert k in Unseen(s.contents, keys) && k !in Unseen(s.contents, keys');
  }

  lemma ScanIsAll(keys: seq<Bytes>, values: seq<Bytes>, m: map<Bytes, Bytes>, first: Bytes, last: Bytes)
    requires ScanOf(keys, values, m, first, last) && IsGreatest(last, m)
    requires forall k :: k in m ==> Rank(first) <= Rank(k)
    ensures Listing(keys, values, m, 0.0, 1.0)
  {
  }

  lemma ScanOfNothing(keys: seq<Bytes>, values: seq<Bytes>, first: Bytes, last: Bytes)
    requires ScanOf(keys, values, map[], first, last)
    ensures Listing(keys, values, map[], 0.0, 1.0)
  {
  }

  /* ---- a table whose last leaf was emptied ---- */

  ghost function EmptiedPages(a: Bytes, b: Bytes, c: Bytes): PageMap {
    map[0 := Page(0, false, 1, 0, [c], [], [1, 2]), 1 := Page(1, true, 2, 2, [a, b], [[], []], []),
        2 := Page(2, true, 0, 0, [], [], [])]
  }

  ghost function EmptiedShape(a: Bytes, b: Bytes, c: Bytes): Shape {
    Shape(map[0 := Info(1, 0.0, 1.0), 1 := Info(0, 0.0, Rank(c)), 2 := Info(0, Rank(c), 1.0)], map[a := [], b := []])
  }

  lemma EmptiedTree(a: Bytes, b: Bytes, c: Bytes)
    requires Rank(a) < Rank(b) < Rank(c)
    ensures TreeOk(EmptiedPages(a, b, c), EmptiedShape(a, b, c), 0, {})
  {
    hide Rank, PageOk;
    var pages, s := EmptiedPages(a, b, c), EmptiedShape(a, b, c);
    EmptiedRoot(a, b, c);
    EmptiedLeaves(a, b, c);
    assert forall p :: p in s.nodes ==> p == 0 || p == 1 || p == 2;
  }

  lemma EmptiedRoot(a: Bytes, b: Bytes, c: Bytes)
    requires Rank(a) < Rank(b) < Rank(c)
    ensures var s := EmptiedShape(a, b, c); PageOk(Load(EmptiedPages(a, b, c), 0), s, s.nodes[0], MAX_CHILDREN - 1)
  {
    hide Rank;
  }

  lemma EmptiedLeaves(a: Bytes, b: Bytes, c: Bytes)
    requires Rank(a) < Rank(b) < Rank(c)
    ensures var pages, s := EmptiedPages(a, b, c), EmptiedShape(a, b, c);
      PageOk(Load(pages, 1), s, s.nodes[1], MAX_CHILDREN - 1) && PageOk(Load(pages, 2), s, s.nodes[2], MAX_CHILDREN - 1)
  {
    hide Rank;
    CompareIsRank(a, b);
    var keys := [a, b];
    assert keys[0] in keys && keys[1] in keys;
  }

  /** Rows 1 to 4 were inserted and rows 3 and 4 deleted: the tree is well
      formed, its last leaf is empty, and the ID of the next row is that of a row
      that is still there. */
  lemma EmptiedTail(next: int)
    ensures var pages, s := EmptiedPages(EncodeKey(1), EncodeKey(2), EncodeKey(3)),
                            EmptiedShape(EncodeKey(1), EncodeKey(2), EncodeKey(3));
      && TreeOk(pages, s, 0, {}) && RowKeys(s.contents) && ProbeLeafEmpty(pages, s)
      && (NextAfter(pages, s, next) <==> next == 1) && EncodeKey(1) in s.contents && !AboveAll(1, s.contents)
  {
    hide EncodeKey, DecodeKey, Rank, TreeOk;
    KeyOrder(1, 2);
    KeyOrder(2, 3);
    KeyRoundTrip(1);
    KeyRoundTrip(2);
    HighestRank(EncodeKey(3), LAST_PROBE);
    EmptiedTree(EncodeKey(1), EncodeKey(2), EncodeKey(3));
    var pages, s := EmptiedPages(EncodeKey(1), EncodeKey(2), EncodeKey(3)),
                    EmptiedShape(EncodeKey(1), EncodeKey(2), EncodeKey(3));
    assert 2 in s.nodes && Load(pages, 2).keys == [] && Covers(s.nodes[2], LAST_PROBE);
  }
}

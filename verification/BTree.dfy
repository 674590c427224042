/** The tree's operations over a pager, proved against the map it stands for. */
module BTree {
  import opened Bytes
  import opened Pages
  import opened Seqs
  import opened TreeShape
  import opened TreeFacts
  import opened TreeRoom

  const FIRST_PROBE: Bytes := [0]
  const LAST_PROBE: Bytes := [0xff, 0xff, 0xff, 0xff, 0xff, 0xff, 0xff, 0xff]

  /** Every page ever written has an ID below the next one, and fits. */
  ghost predicate TidyPages(pages: PageMap, nextID: PageID, pageSize: nat) {
    1 <= nextID && forall id :: id in pages ==> id < nextID && Fits(Load(pages, id), pageSize)
  }

  /** The pages of one transaction, and the next page ID it will hand out. */
  class Pager {
    const pageSize: nat
    var pages: map<PageID, Page>
    var nextID: PageID

    /** A transaction on a committed state that holds these pages. */
    constructor (pages: PageMap, firstID: PageID, pageSize: nat)
      ensures this.pageSize == pageSize && nextID == firstID && this.pages == pages
      ensures TidyPages(pages, firstID, pageSize) ==> Tidy()
    {
      this.pageSize, nextID, this.pages := pageSize, firstID, pages;
    }

    ghost predicate Tidy()
      reads this
    {
      TidyPages(pages, nextID, pageSize)
    }

    /** A page that does not fit is refused and changes nothing. */
    method PutPage(id: PageID, page: Page) returns (saved: bool)
      modifies this`pages
      ensures saved == Fits(page, pageSize)
      ensures pages == if saved then old(pages)[id := page] else old(pages)
      ensures old(Tidy()) && page.id == id < nextID ==> Tidy()
    {
      saved := Fits(page, pageSize);
      if saved {
        pages := pages[id := page];
      }
    }

    method NextID() returns (id: PageID)
      modifies this`nextID
      ensures id == old(nextID) && nextID == id + 1
      ensures old(Tidy()) ==> Tidy() && 1 <= id && id !in pages
    {
      id := nextID;
      nextID := nextID + 1;
    }

    lemma WrittenFits(id: PageID)
      requires Tidy() && id in pages
      ensures Fits(Load(pages, id), pageSize)
    {
    }
  }

  datatype DeleteResult = Deleted | KeyNotFound

  class Tree {
    const pager: Pager
    const rootID: PageID
    ghost var shape: Shape

    constructor (pager: Pager, rootPageID: PageID, ghost shape: Shape)
      requires TreeOk(pager.pages, shape, rootPageID, {}) && OwnedBy(pager, shape)
      ensures this.pager == pager && rootID == rootPageID && this.shape == shape
      ensures Valid()
    {
      this.pager, rootID, this.shape := pager, rootPageID, shape;
    }

    static ghost predicate OwnedBy(pager: Pager, s: Shape)
      reads pager
    {
      pager.Tidy() && forall p :: p in s.nodes ==> 0 <= p < pager.nextID
    }

    ghost predicate Valid()
      reads this, pager
    {
      TreeOk(pager.pages, shape, rootID, {}) && OwnedBy(pager, shape)
    }

    method LoadPage(id: PageID) returns (page: Page)
      ensures page == Load(pager.pages, id)
    {
      if id in pager.pages {
        page := pager.pages[id].(id := id);
      } else {
        page := EmptyLeaf(id);
      }
    }

    method FindLeaf(key: Bytes) returns (leaf: Page, path: seq<PathEntry>)
      requires Valid()
      ensures leaf.id in shape.nodes && shape.nodes[leaf.id].level == 0 && Covers(shape.nodes[leaf.id], key)
      ensures leaf == Load(pager.pages, leaf.id)
      ensures PathOk(pager.pages, shape, rootID, path, leaf.id)
    {
      path := [];
      var currentID := rootID;
      leaf := LoadPage(currentID);
      while !leaf.isLeaf
        invariant leaf == Load(pager.pages, currentID) && currentID in shape.nodes
        invariant Covers(shape.nodes[currentID], key)
        invariant PathOk(pager.pages, shape, rootID, path, currentID)
        decreases shape.nodes[currentID].level
      {
        var i := SearchAfter(leaf.keys, key);
        Descends(leaf, shape, shape.nodes[currentID], key, i);
        PathGrows(pager.pages, shape, rootID, path, currentID, i);
        path := path + [PathEntry(currentID, i)];
        currentID := leaf.children[i];
        leaf := LoadPage(currentID);
      }
    }
  
    /** The value stored under a key, if there is one. */
    method Search(key: Bytes) returns (value: Bytes, found: bool)
      requires Valid()
      ensures found <==> key in shape.contents
      ensures found ==> value == shape.contents[key]
    {
      var leaf, _ := FindLeaf(key);
      var i := SearchFrom(leaf.keys, key);
      found := i < |leaf.keys| && KeyCompare(leaf.keys[i], key) == 0;
      value := if found then leaf.values[i] else [];
      if i < |leaf.keys| {
        CompareIsRank(leaf.keys[i], key);
      }
    }

    method Contains(key: Bytes) returns (found: bool)
      requires Valid()
      ensures found <==> key in shape.contents
    {
      var _, f := Search(key);
      found := f;
    }

    /** Adds or replaces one entry. Splits may climb to the root, whose page ID
        never changes; no page outside this tree is touched. It is refused exactly
        when the covering leaf has no room for the entry, and then changes nothing,
        or a page above has none for the separator of a split, and then leaves
        that split halfway. */
    method Insert(key: Bytes, value: Bytes) returns (saved: bool)
      requires Valid()
      modifies this`shape, pager`pages, pager`nextID
      ensures saved <==> old(HasRoom(pager.pages, shape, rootID, key, value, pager.pageSize))
      ensures saved ==> Valid() && shape.contents == old(shape.contents)[key := value]
      ensures saved && old(Dense(pager.pages, shape, rootID)) ==> Dense(pager.pages, shape, rootID)
      ensures !saved ==>
                || (pager.pages == old(pager.pages) && shape == old(shape))
                || (HalfSplit(pager.pages, shape, rootID) && shape.contents == old(shape.contents)[key := value])
      ensures StaysWithin(old(pager.pages), pager.pages, key, value)
      ensures saved ==> WrittenInside(old(pager.pages), pager.pages, shape)
      ensures pager.nextID <= old(pager.nextID) + old(shape.nodes[rootID].level) + 2
      ensures pager.Tidy()
      ensures Grown(old(pager.pages), old(shape), old(pager.nextID), pager.pages, shape, pager.nextID)
    {
      hide TreeOk, Dense, Grown, HasRoom, WithPair, HalfSplit;
      hide StaysWithin, ClimbFits, PageStays, Covers, Fits, WrittenInside;
      ghost var pages0, s0, next0 := pager.pages, shape, pager.nextID;
      var leaf, path := FindLeaf(key);
      RoomOnTheWay(pages0, s0, rootID, path, leaf, key, value, pager.pageSize);
      PathLength(pages0, s0, rootID, path, leaf.id);
      LeafShape(pages0, s0, rootID, {}, leaf);
      PairStays(pages0, leaf, key, value);
      leaf, saved := InsertIntoLeaf(leaf, key, value);
      ghost var pages1, s1, next1 := pager.pages, shape, pager.nextID;
      if saved && |leaf.keys| >= MAX_CHILDREN {
        assert PathOk(pager.pages, shape, rootID, path, leaf.id) by {
          PathAbove(pages0, s0, rootID, path, leaf, s1);
        }
        LeafNotAbove(pages0, s0, rootID, path, leaf, leaf.keys[2], pager.pageSize);
        saved := SplitLeaf(leaf, path);
        GrownTrans(pages0, s0, next0, pages1, s1, next1, pager.pages, shape, pager.nextID);
        StaysTrans(pages0, pages1, pager.pages, key, value, leaf, []);
        if saved {
          NodesGrow(pages1, s1, next1, pager.pages, shape, pager.nextID);
          WrittenTrans(pages0, pages1, s1, pager.pages, shape);
        }
      }
    }

    /** Removes one entry and nothing else; a leaf may be left empty. */
    method Delete(key: Bytes) returns (r: DeleteResult)
      requires Valid()
      modifies this`shape, pager`pages
      ensures r.KeyNotFound? <==> key !in old(shape.contents)
      ensures r.KeyNotFound? ==> shape == old(shape) && pager.pages == old(pager.pages)
      ensures r.Deleted? ==> shape == old(shape).(contents := old(shape.contents) - {key})
      ensures Valid()
      ensures StaysWithin(old(pager.pages), pager.pages, [], [])
      ensures Grown(old(pager.pages), old(shape), pager.nextID, pager.pages, shape, pager.nextID)
    {
      hide PageOk, Layout, Rank, Grown, StaysWithin, PageStays;
      ghost var pages0, s0 := pager.pages, shape;
      StaysSame(pages0, [], []);
      GrownSame(pages0, s0, pager.nextID);
      var leaf, _ := FindLeaf(key);
      LeafShape(pager.pages, shape, rootID, {}, leaf);
      var i := SearchFrom(leaf.keys, key);
      if i < |leaf.keys| {
        CompareIsRank(leaf.keys[i], key);
      }
      assert key in shape.contents <==> key in leaf.keys by {
        InItsLeaf(pager.pages, shape, rootID, leaf, key);
      }
      if i >= |leaf.keys| || KeyCompare(leaf.keys[i], key) != 0 {
        return KeyNotFound;
      }
      var leaf' := leaf.(keys := leaf.keys[..i] + leaf.keys[i + 1..],
                         values := leaf.values[..i] + leaf.values[i + 1..],
                         numKeys := |leaf.keys| - 1);
      LeafDrops(pager.pages, shape, rootID, leaf, i);
      FitsWithout(leaf, i, pager.pageSize);
      WithoutStays(pages0, leaf, i);
      StaysPut(pages0, pages0, [], [], leaf.id, leaf');
      assert leaf.id in pager.pages;
      var saved := pager.PutPage(leaf.id, leaf');
      shape := shape.(contents := shape.contents - {key});
      GrownPut(pages0, s0, pager.nextID, pages0, s0, pager.nextID, leaf.id, leaf');
      GrownNodes(pages0, s0, pager.nextID, pager.pages, s0, pager.nextID, shape);
      r := Deleted;
    }

    /** Every entry in ascending key order, from the leaf that would hold {0} on:
        all of them, but for the entry of the empty key if that is in a leaf of
        its own. */
    method All() returns (keys: seq<Bytes>, values: seq<Bytes>)
      requires Valid()
      ensures ListsFromProbe(keys, values, shape.contents)
      ensures [] !in shape.contents ==> Listing(keys, values, shape.contents, 0.0, 1.0)
    {
      hide PageOk, Layout, Rank, Listing;
      var leaf, _ := FindLeaf(FIRST_PROBE);
      LeafLists(pager.pages, shape, rootID, leaf);
      ghost var from := shape.nodes[leaf.id].lo;
      keys, values := [], [];
      NothingListed(shape.contents, from);
      while true
        invariant leaf.id in shape.nodes && shape.nodes[leaf.id].level == 0 && leaf == Load(pager.pages, leaf.id)
        invariant from <= shape.nodes[leaf.id].lo
        invariant Listing(keys, values, shape.contents, from, shape.nodes[leaf.id].lo)
        decreases From(shape, shape.nodes[leaf.id].lo)
      {
        ghost var n := shape.nodes[leaf.id];
        LeafLists(pager.pages, shape, rootID, leaf);
        ListingJoins(keys, values, leaf.keys, leaf.values, shape.contents, from, n.lo, n.hi);
        keys := keys + leaf.keys;
        values := values + leaf.values;
        if leaf.nextLeaf == 0 {
          break;
        }
        assert leaf.id in From(shape, n.lo) && leaf.id !in From(shape, n.hi);
        leaf := LoadPage(leaf.nextLeaf);
      }
      ListsAll(keys, values, shape.contents, from);
    }

    /** The first key of the leaf that would hold {0}, zero if it was emptied:
        either way no row key is below it. */
    method FirstKey() returns (key: Bytes)
      requires Valid()
      ensures RowKeys(shape.contents) ==> forall k :: k in shape.contents ==> Rank(key) <= Rank(k)
      ensures Dense(pager.pages, shape, rootID) && [] !in shape.contents && shape.contents != map[] ==>
        key in shape.contents && forall k :: k in shape.contents ==> Rank(key) <= Rank(k)
      ensures key == EncodeKey(0) || key in shape.contents
    {
      hide PageOk, Layout, Rank;
      var leaf, _ := FindLeaf(FIRST_PROBE);
      LeafLists(pager.pages, shape, rootID, leaf);
      key := if |leaf.keys| < 1 then EncodeKey(0) else leaf.keys[0];
      if RowKeys(shape.contents) {
        ZeroBelowRows(shape.contents);
        if |leaf.keys| >= 1 {
          FirstOfProbe(pager.pages, shape, rootID, leaf);
        }
      }
      if Dense(pager.pages, shape, rootID) && [] !in shape.contents && shape.contents != map[] {
        DenseLeafFilled(pager.pages, shape, rootID, leaf);
        FirstOfProbe(pager.pages, shape, rootID, leaf);
      }
    }

    /** The greatest key, but zero when the leaf that would hold the largest
        eight-byte key was emptied. */
    method LastKey() returns (key: Bytes)
      requires Valid()
      ensures ProbeLeafEmpty(pager.pages, shape) ==> key == EncodeKey(0)
      ensures TailFilled(pager.pages, shape) && shape.contents != map[] ==> IsGreatest(key, shape.contents)
      ensures RowKeys(shape.contents) && !ProbeLeafEmpty(pager.pages, shape) ==> IsGreatest(key, shape.contents)
      ensures key == EncodeKey(0) || key in shape.contents
    {
      hide TreeOk, Rank, TailFilled, RowKeys, IsGreatest, EncodeKey, ProbeLeafEmpty, OwnedBy, PathOk, Listing;
      var leaf, _ := FindLeaf(LAST_PROBE);
      LeafLists(pager.pages, shape, rootID, leaf);
      if |leaf.keys| == 0 {
        EmptyProbe(pager.pages, shape, leaf);
        if TailFilled(pager.pages, shape) {
          TailFilledAt(pager.pages, shape, leaf.id);
        }
        return EncodeKey(0);
      }
      assert !ProbeLeafEmpty(pager.pages, shape) by {
        OneProbeLeaf(pager.pages, shape, rootID, leaf);
      }
      leaf := LastFilled(leaf);
      LeafLists(pager.pages, shape, rootID, leaf);
      key := leaf.keys[|leaf.keys| - 1];
      if leaf.nextLeaf == 0 {
        GreatestOfLast(shape.contents, leaf.keys, leaf.values, shape.nodes[leaf.id]);
      } else if RowKeys(shape.contents) {
        GreatestOfRows(shape.contents, leaf.keys, leaf.values, shape.nodes[leaf.id]);
      }
    }

    /** Walks right until the chain ends or the next leaf is empty. */
    method LastFilled(start: Page) returns (leaf: Page)
      requires Valid() && start.id in shape.nodes && shape.nodes[start.id].level == 0
      requires start == Load(pager.pages, start.id)
      requires Rank(LAST_PROBE) < shape.nodes[start.id].hi && start.keys != []
      ensures leaf.id in shape.nodes && shape.nodes[leaf.id].level == 0 && leaf == Load(pager.pages, leaf.id)
      ensures Rank(LAST_PROBE) < shape.nodes[leaf.id].hi && leaf.keys != []
      ensures TailFilled(pager.pages, shape) ==> leaf.nextLeaf == 0
    {
      hide TreeOk, Rank, TailFilled;
      leaf := start;
      while leaf.nextLeaf != 0
        invariant leaf.id in shape.nodes && shape.nodes[leaf.id].level == 0 && leaf == Load(pager.pages, leaf.id)
        invariant Rank(LAST_PROBE) < shape.nodes[leaf.id].hi && leaf.keys != []
        decreases From(shape, shape.nodes[leaf.id].lo)
      {
        ghost var n := shape.nodes[leaf.id];
        LeafLists(pager.pages, shape, rootID, leaf);
        var next := LoadPage(leaf.nextLeaf);
        LeafLists(pager.pages, shape, rootID, next);
        if |next.keys| == 0 {
          if TailFilled(pager.pages, shape) {
            TailFilledAt(pager.pages, shape, next.id);
          }
          break;
        }
        assert leaf.id in From(shape, n.lo) && leaf.id !in From(shape, n.hi);
        leaf := next;
      }
    }

    method NextIntegerKey() returns (next: int)
      requires Valid()
      requires forall k :: k in shape.contents ==> 8 <= |k|
      ensures NextAfter(pager.pages, shape, next)
    {
      hide TreeOk, Rank, EncodeKey, DecodeKey, ProbeLeafEmpty, TailFilled;
      var buf := LastKey();
      KeyRoundTrip(0);
      var lastKey := DecodeKey(buf);
      next := ToInt64(lastKey + 1);
    }

    method InsertAt(rowID: int, value: Bytes) returns (saved: bool)
      requires Valid()
      modifies this`shape, pager`pages, pager`nextID
      ensures saved <==> old(HasRoom(pager.pages, shape, rootID, EncodeKey(rowID), value, pager.pageSize))
      ensures saved ==> Valid() && shape.contents == old(shape.contents)[EncodeKey(rowID) := value]
      ensures saved && old(Dense(pager.pages, shape, rootID)) ==> Dense(pager.pages, shape, rootID)
      ensures StaysWithin(old(pager.pages), pager.pages, EncodeKey(rowID), value)
      ensures pager.Tidy()
      ensures Grown(old(pager.pages), old(shape), old(pager.nextID), pager.pages, shape, pager.nextID)
    {
      hide HasRoom, StaysWithin, HalfSplit, Grown, Dense, TreeOk;
      saved := Insert(EncodeKey(rowID), value);
    }

    /** Inserts under the ID after the last one. On a table of row keys the ID is
        above every row's exactly when the last leaf was not emptied or the table
        is empty; after an emptied last leaf it is 1 again. */
    method InsertNext(value: Bytes) returns (rowID: int, saved: bool)
      requires Valid()
      requires forall k :: k in shape.contents ==> 8 <= |k|
      modifies this`shape, pager`pages, pager`nextID
      ensures saved ==> Valid() && shape.contents == old(shape.contents)[EncodeKey(rowID) := value]
      ensures saved && old(Dense(pager.pages, shape, rootID)) ==> Dense(pager.pages, shape, rootID)
      ensures old(ProbeLeafEmpty(pager.pages, shape)) ==> rowID == 1
      ensures old(RowKeys(shape.contents) && EncodeKey(TWO_63 - 1) !in shape.contents) ==>
        (AboveAll(rowID, old(shape.contents)) <==>
         old(shape.contents == map[] || !ProbeLeafEmpty(pager.pages, shape)))
      ensures old(RowKeys(shape.contents) && !ProbeLeafEmpty(pager.pages, shape)) ==>
        exists k :: IsGreatest(k, old(shape.contents)) && rowID == ToInt64(DecodeKey(k) + 1)
      ensures saved <==> old(HasRoom(pager.pages, shape, rootID, EncodeKey(rowID), value, pager.pageSize))
      ensures StaysWithin(old(pager.pages), pager.pages, EncodeKey(rowID), value)
      ensures pager.Tidy()
      ensures Grown(old(pager.pages), old(shape), old(pager.nextID), pager.pages, shape, pager.nextID)
    {
      hide TreeOk, Dense, Grown, Rank, HasRoom, StaysWithin;
      rowID := NextIntegerKey();
      if RowKeys(shape.contents) && EncodeKey(TWO_63 - 1) !in shape.contents {
        NextIsAbove(pager.pages, shape, rowID);
      }
      saved := InsertAt(rowID, value);
    }

    method InsertIntoLeaf(leaf: Page, key: Bytes, value: Bytes) returns (leaf': Page, saved: bool)
      requires Valid()
      requires leaf.id in shape.nodes && shape.nodes[leaf.id].level == 0 && Covers(shape.nodes[leaf.id], key)
      requires leaf == Load(pager.pages, leaf.id)
      modifies this`shape, pager`pages
      ensures |leaf.keys| == |leaf.values| && leaf' == WithPair(leaf, key, value) && leaf'.id == leaf.id
      ensures saved <==> Fits(leaf', pager.pageSize)
      ensures shape.nodes == old(shape.nodes) && (!saved ==> shape == old(shape))
      ensures pager.pages == if saved then old(pager.pages)[leaf.id := leaf'] else old(pager.pages)
      ensures saved ==> shape.contents == old(shape.contents)[key := value]
      ensures saved ==> OwnedBy(pager, shape)
      ensures saved ==> TreeOk(pager.pages, shape, rootID, if |leaf'.keys| < MAX_CHILDREN then {} else {leaf.id})
      ensures |leaf'.keys| <= MAX_CHILDREN
      ensures saved && old(Dense(pager.pages, shape, rootID)) ==> Dense(pager.pages, shape, rootID)
      ensures StaysWithin(old(pager.pages), pager.pages, key, value)
      ensures saved ==> WrittenInside(old(pager.pages), pager.pages, shape)
      ensures pager.Tidy()
      ensures Grown(old(pager.pages), old(shape), pager.nextID, pager.pages, shape, pager.nextID)
    {
      hide PageOk, Layout, Rank, Dense, Grown, Fits, Pager.Tidy, StaysWithin, PageStays, Place;
      ghost var pages0, s0 := pager.pages, shape;
      assert Grown(pages0, s0, pager.nextID, pages0, s0, pager.nextID) by {
        GrownSame(pages0, s0, pager.nextID);
      }
      StaysSame(pages0, key, value);
      LeafShape(pager.pages, shape, rootID, {}, leaf);
      PairStays(pages0, leaf, key, value);
      leaf' := leaf;
      var i := SearchFrom(leaf.keys, key);
      if i < |leaf.keys| {
        CompareIsRank(leaf.keys[i], key);
      }
      if i < |leaf.keys| && KeyCompare(leaf.keys[i], key) == 0 {
        leaf' := leaf.(values := leaf.values[i := value], numKeys := |leaf.keys|);
      } else {
        leaf' := leaf.(keys := leaf.keys[..i] + [key] + leaf.keys[i..],
                       values := leaf.values[..i] + [value] + leaf.values[i..],
                       numKeys := |leaf.keys| + 1);
      }
      PlaceIs(leaf.keys, key, i);
      LeafTakes(pager.pages, shape, rootID, leaf, i, key, value, leaf');
      saved := pager.PutPage(leaf'.id, leaf');
      if saved {
        StaysPut(pages0, pages0, key, value, leaf.id, leaf');
        shape := shape.(contents := shape.contents[key := value]);
        GrownPut(pages0, s0, pager.nextID, pages0, s0, pager.nextID, leaf.id, leaf');
        GrownNodes(pages0, s0, pager.nextID, pager.pages, s0, pager.nextID, shape);
        if Dense(pages0, s0, rootID) {
          DensePut(pages0, s0, rootID, leaf.id, leaf');
          assert Dense(pager.pages, shape, rootID) by { DenseNodes(pager.pages, s0, shape, rootID); }
        }
      }
    }

    /** Splits a leaf that took one key too many. */
    method SplitLeaf(leaf: Page, path: seq<PathEntry>) returns (saved: bool)
      requires TreeOk(pager.pages, shape, rootID, {leaf.id}) && OwnedBy(pager, shape)
      requires PathOk(pager.pages, shape, rootID, path, leaf.id)
      requires leaf == Load(pager.pages, leaf.id) && shape.nodes[leaf.id].level == 0 && |leaf.keys| == MAX_CHILDREN
      modifies this`shape, pager`pages, pager`nextID
      ensures saved <==> ClimbFits(old(pager.pages), path, leaf.keys[2], pager.pageSize)
      ensures saved ==> WrittenInside(old(pager.pages), pager.pages, shape)
      ensures pager.nextID <= old(pager.nextID) + |path| + 2
      ensures !saved ==> HalfSplit(pager.pages, shape, rootID) && shape.contents == old(shape.contents)
      ensures StaysWithin(old(pager.pages), pager.pages, [], [])
      ensures saved ==> Valid() && shape.contents == old(shape.contents)
      ensures saved && old(Dense(pager.pages, shape, rootID)) ==> Dense(pager.pages, shape, rootID)
      ensures pager.Tidy()
      ensures Grown(old(pager.pages), old(shape), old(pager.nextID), pager.pages, shape, pager.nextID)
    {
      hide PageOk, Layout, Rank, Dense, Grown, Fits;
      hide Pager.Tidy, Pending, ClimbFits, HalfSplit, StaysWithin, PageStays, WrittenInside;
      ghost var pages0, s0, next0 := pager.pages, shape, pager.nextID;
      LeafShape(pager.pages, shape, rootID, {leaf.id}, leaf);
      pager.WrittenFits(leaf.id);
      var mid := |leaf.keys| / 2;
      var rightID := pager.NextID();
      assert Grown(pages0, s0, next0, pages0, s0, next0 + 1) by {
        GrownSame(pages0, s0, next0);
      }
      LeafHalvesFit(leaf, leaf.id, rightID, pager.pageSize);
      var right := Page(rightID, true, |leaf.keys| - mid, leaf.nextLeaf, leaf.keys[mid..], leaf.values[mid..], []);
      if |path| == 0 {
        saved := SplitRootLeaf(leaf, mid, right, pages0, s0, next0);
        RootLeafFits(pages0, path, leaf.keys[2], pager.pageSize);
        return;
      }
      var low := Page(leaf.id, true, mid, rightID, leaf.keys[..mid], leaf.values[..mid], []);
      ghost var s1 := SplitNode(s0, leaf.id, leaf.keys[mid], rightID);
      SplitLeafPends(pager.pages, shape, rootID, path, leaf, rightID);
      LeafHalvesStay(pages0, leaf, low, right);
      SplitWritten(pages0, s1, leaf.id, low, rightID, right);
      GrownPut(pages0, s0, next0, pages0, s0, next0 + 1, leaf.id, low);
      saved := pager.PutPage(leaf.id, low);
      GrownPut(pages0, s0, next0, pager.pages, s0, next0 + 1, rightID, right);
      saved := pager.PutPage(rightID, right);
      ghost var pages1 := pager.pages;
      shape := s1;
      GrownNodes(pages0, s0, next0, pages1, s0, next0 + 1, s1);
      if Dense(pages0, s0, rootID) {
        DenseSplit(pages0, s0, rootID, leaf.id, low, leaf.keys[mid], rightID, right);
      }
      HalvesNotAbove(pages0, s0, rootID, path, leaf.id, low, rightID, right, leaf.keys[mid], pager.pageSize);
      saved := InsertIntoParent(leaf.id, right.keys[0], rightID, path);
      GrownTrans(pages0, s0, next0, pages1, s1, next0 + 1, pager.pages, shape, pager.nextID);
      StaysTrans(pages0, pages1, pager.pages, [], [], leaf, leaf.keys[mid]);
      if saved {
        NodesGrow(pages1, s1, next0 + 1, pager.pages, shape, pager.nextID);
        WrittenTrans(pages0, pages1, s1, pager.pages, shape);
      }
    }

    method SplitRootLeaf(leaf: Page, mid: nat, right: Page, ghost pages0: PageMap, ghost s0: Shape, ghost next0: PageID)
      returns (saved: bool)
      requires TreeOk(pager.pages, shape, rootID, {rootID}) && OwnedBy(pager, shape)
      requires leaf == Load(pager.pages, rootID) && shape.nodes[rootID].level == 0
      requires mid == 2 && |leaf.keys| == |leaf.values| == MAX_CHILDREN
      requires right == LeafHigh(leaf, mid, right.id) && right.id !in shape.nodes
      requires 1 <= next0 <= right.id < pager.nextID
      requires Grown(pages0, s0, next0, pager.pages, shape, pager.nextID)
      requires Fits(leaf, pager.pageSize)
      modifies this`shape, pager`pages, pager`nextID
      ensures saved && Valid() && shape.contents == old(shape.contents)
      ensures WrittenInside(old(pager.pages), pager.pages, shape)
      ensures pager.nextID == old(pager.nextID) + 1
      ensures Dense(pager.pages, shape, rootID)
      ensures StaysWithin(old(pager.pages), pager.pages, [], [])
      ensures pager.Tidy()
      ensures Grown(pages0, s0, next0, pager.pages, shape, pager.nextID)
    {
      hide PageOk, Layout, Rank, Dense, Grown, Fits, Pager.Tidy, StaysWithin, PageStays, WrittenInside;
      ghost var pages1, s1 := pager.pages, shape;
      var newLeftID := pager.NextID();
      assert Grown(pages0, s0, next0, pages1, s1, newLeftID + 1) by {
        GrownMore(pages0, s0, next0, pages1, s1, newLeftID);
      }
      LeafShape(pager.pages, shape, rootID, {rootID}, leaf);
      LeafHalvesFit(leaf, newLeftID, right.id, pager.pageSize);
      var left := Page(newLeftID, true, mid, right.id, leaf.keys[..mid], leaf.values[..mid], []);
      var root := Page(rootID, false, 1, 0, [right.keys[0]], [], [newLeftID, right.id]);
      ghost var s2 := RaiseRoot(SplitNode(shape, rootID, leaf.keys[mid], right.id), rootID, newLeftID);
      RootLeafSplits(pager.pages, shape, rootID, leaf, mid, right.id, newLeftID);
      RootHalvesStay(pages1, leaf, left, right, root);
      RootSplitWritten(pages1, s2, newLeftID, left, right.id, right, rootID, root);
      assert next0 <= newLeftID;
      GrownPut(pages0, s0, next0, pages1, s1, newLeftID + 1, newLeftID, left);
      saved := pager.PutPage(newLeftID, left);
      GrownPut(pages0, s0, next0, pager.pages, s1, newLeftID + 1, right.id, right);
      saved := pager.PutPage(right.id, right);
      GrownPut(pages0, s0, next0, pager.pages, s1, newLeftID + 1, rootID, root);
      saved := pager.PutPage(rootID, root);
      shape := s2;
      GrownNodes(pages0, s0, next0, pager.pages, s1, newLeftID + 1, s2);
      assert Dense(pager.pages, shape, rootID) by {
        LoneRootSplit(pages1, s1, rootID, left, right, root, leaf.keys[mid]);
      }
    }

    /** Tells the parent about a split; the parent may have to split in turn. */
    method InsertIntoParent(leftID: PageID, key: Bytes, rightID: PageID, path: seq<PathEntry>) returns (saved: bool)
      requires Pending(pager.pages, shape, rootID, path, leftID, key, rightID) && OwnedBy(pager, shape)
      requires path == [] ==> 0 < shape.nodes[leftID].level
      requires path == [] ==> leftID in pager.pages && Fits(NewRoot(rootID, key, leftID, rightID), pager.pageSize)
      modifies this`shape, pager`pages, pager`nextID
      ensures saved <==> ClimbFits(old(pager.pages), path, key, pager.pageSize)
      ensures saved ==> WrittenInside(old(pager.pages), pager.pages, shape)
      ensures pager.nextID <= old(pager.nextID) + |path| + 1
      ensures !saved ==> HalfSplit(pager.pages, shape, rootID) && shape.contents == old(shape.contents)
      ensures StaysWithin(old(pager.pages), pager.pages, key, [])
      ensures saved ==> Valid() && shape.contents == old(shape.contents)
      ensures saved && old(Dense(pager.pages, shape, rootID)) ==> Dense(pager.pages, shape, rootID)
      ensures pager.Tidy()
      ensures Grown(old(pager.pages), old(shape), old(pager.nextID), pager.pages, shape, pager.nextID)
      decreases |path|, 0
    {
      hide PageOk, Layout, Rank, Dense, Grown, Fits, Pager.Tidy, HalfSplit, ClimbFits, StaysWithin, PageStays;
      hide Pending, PathOk, TreeOk, InternalOk, WrittenInside;
      ghost var pages0, s0, next0 := pager.pages, shape, pager.nextID;
      GrownSame(pages0, s0, next0);
      if |path| == 0 {
        saved := RaiseRootPage(leftID, key, rightID);
        RootLeafFits(pages0, path, key, pager.pageSize);
        return;
      }
      var parentEntry := path[|path| - 1];
      var parent := LoadPage(parentEntry.pageID);
      var i := parentEntry.index;
      ParentTold(pager.pages, shape, rootID, path, leftID, key, rightID);
      ToldClimbs(pages0, s0, rootID, path, key, rightID, pager.pageSize);
      ChildStays(pages0, parent, i, key, rightID);
      parent := parent.(keys := parent.keys[..i] + [key] + parent.keys[i..],
                        children := parent.children[..i + 1] + [rightID] + parent.children[i + 1..],
                        numKeys := |parent.keys| + 1);
      GrownPut(pages0, s0, next0, pages0, s0, next0, parent.id, parent);
      saved := pager.PutPage(parent.id, parent);
      StaysSame(pages0, key, []);
      WrittenSame(pages0, s0);
      WrittenPut(pages0, pages0, s0, parent.id, parent);
      if saved {
        StaysPut(pages0, pages0, key, [], parent.id, parent);
        if Dense(pages0, s0, rootID) {
          DensePut(pages0, s0, rootID, parent.id, parent);
        }
        if |parent.keys| >= MAX_CHILDREN {
          ghost var pages1 := pager.pages;
          saved := SplitInternal(parent, path[..|path| - 1]);
          GrownTrans(pages0, s0, next0, pages1, s0, next0, pager.pages, shape, pager.nextID);
          StaysTrans(pages0, pages1, pager.pages, key, [], parent, []);
          if saved {
            NodesGrow(pages1, s0, next0, pager.pages, shape, pager.nextID);
            WrittenTrans(pages0, pages1, s0, pager.pages, shape);
          }
        }
      } else {
        StaysHalf(pages0, s0, rootID, path, leftID, key, rightID);
      }
    }

    /** The root has split: its left half moves to a page of its own, and the root
        page becomes the parent of both. */
    method RaiseRootPage(leftID: PageID, key: Bytes, rightID: PageID) returns (saved: bool)
      requires Pending(pager.pages, shape, rootID, [], leftID, key, rightID) && OwnedBy(pager, shape)
      requires 0 < shape.nodes[leftID].level
      requires leftID in pager.pages && Fits(NewRoot(rootID, key, leftID, rightID), pager.pageSize)
      modifies this`shape, pager`pages, pager`nextID
      ensures saved && Valid() && shape.contents == old(shape.contents)
      ensures WrittenInside(old(pager.pages), pager.pages, shape)
      ensures pager.nextID == old(pager.nextID) + 1
      ensures old(Dense(pager.pages, shape, rootID)) ==> Dense(pager.pages, shape, rootID)
      ensures StaysWithin(old(pager.pages), pager.pages, key, [])
      ensures Grown(old(pager.pages), old(shape), old(pager.nextID), pager.pages, shape, pager.nextID)
    {
      hide PageOk, Layout, Rank, Dense, Grown, Fits, Pager.Tidy, StaysWithin;
      ghost var pages0, s0, next0 := pager.pages, shape, pager.nextID;
      pager.WrittenFits(leftID);
      var newLeftID := pager.NextID();
      assert Grown(pages0, s0, next0, pages0, s0, next0 + 1) by {
        GrownSame(pages0, s0, next0);
      }
      var left := LoadPage(leftID);
      RootRaised(pager.pages, shape, rootID, key, rightID, newLeftID);
      left := left.(id := newLeftID);
      RaisedFits(pages0, newLeftID, pager.pageSize, leftID, rootID, key, rightID);
      RaisedStays(pages0, leftID, newLeftID, rootID, key, rightID);
      GrownPut(pages0, s0, next0, pages0, s0, next0 + 1, newLeftID, left);
      saved := pager.PutPage(newLeftID, left);
      var newRoot := Page(rootID, false, 1, 0, [key], [], [newLeftID, rightID]);
      GrownPut(pages0, s0, next0, pager.pages, s0, next0 + 1, rootID, newRoot);
      saved := pager.PutPage(rootID, newRoot);
      shape := RaiseRoot(shape, rootID, newLeftID);
      GrownNodes(pages0, s0, next0, pager.pages, s0, next0 + 1, shape);
      if Dense(pages0, s0, rootID) {
        DenseRaise(pages0, s0, rootID, newLeftID, left, newRoot);
      }
    }

    method SplitInternal(n: Page, path: seq<PathEntry>) returns (saved: bool)
      requires TreeOk(pager.pages, shape, rootID, {n.id}) && OwnedBy(pager, shape)
      requires PathOk(pager.pages, shape, rootID, path, n.id)
      requires n == Load(pager.pages, n.id) && 0 < shape.nodes[n.id].level && |n.keys| == MAX_CHILDREN
      modifies this`shape, pager`pages, pager`nextID
      ensures saved <==> ClimbFits(old(pager.pages), path, n.keys[2], pager.pageSize)
      ensures saved ==> WrittenInside(old(pager.pages), pager.pages, shape)
      ensures pager.nextID <= old(pager.nextID) + |path| + 2
      ensures !saved ==> HalfSplit(pager.pages, shape, rootID) && shape.contents == old(shape.contents)
      ensures StaysWithin(old(pager.pages), pager.pages, [], [])
      ensures saved ==> Valid() && shape.contents == old(shape.contents)
      ensures saved && old(Dense(pager.pages, shape, rootID)) ==> Dense(pager.pages, shape, rootID)
      ensures pager.Tidy()
      ensures Grown(old(pager.pages), old(shape), old(pager.nextID), pager.pages, shape, pager.nextID)
      decreases |path|, 1
    {
      hide PageOk, Layout, Rank, Dense, Grown, Fits;
      hide Pager.Tidy, Pending, ClimbFits, HalfSplit, StaysWithin, PageStays, WrittenInside;
      ghost var pages0, s0, next0 := pager.pages, shape, pager.nextID;
      InternalShape(pager.pages, shape, rootID, {n.id}, n);
      pager.WrittenFits(n.id);
      var mid := |n.keys| / 2;
      var upKey := n.keys[mid];
      var rightID := pager.NextID();
      assert Grown(pages0, s0, next0, pages0, s0, next0 + 1) by {
        GrownSame(pages0, s0, next0);
      }
      InternalHalvesFit(n, rightID, pager.pageSize);
      var right := Page(rightID, false, |n.keys| - mid - 1, 0, n.keys[mid + 1..], [], n.children[mid + 1..]);
      var low := n.(keys := n.keys[..mid], children := n.children[..mid + 1], numKeys := mid);
      ghost var s1 := SplitNode(s0, n.id, upKey, rightID);
      SplitInternalPends(pager.pages, shape, rootID, path, n, rightID);
      InternalHalvesStay(pages0, n, low, right);
      SplitWritten(pages0, s1, n.id, low, rightID, right);
      GrownPut(pages0, s0, next0, pages0, s0, next0 + 1, n.id, low);
      saved := pager.PutPage(n.id, low);
      GrownPut(pages0, s0, next0, pager.pages, s0, next0 + 1, rightID, right);
      saved := pager.PutPage(rightID, right);
      ghost var pages1 := pager.pages;
      shape := s1;
      GrownNodes(pages0, s0, next0, pages1, s0, next0 + 1, s1);
      if Dense(pages0, s0, rootID) {
        DenseSplit(pages0, s0, rootID, n.id, low, upKey, rightID, right);
      }
      HalvesNotAbove(pages0, s0, rootID, path, n.id, low, rightID, right, upKey, pager.pageSize);
      saved := InsertIntoParent(n.id, upKey, rightID, path);
      GrownTrans(pages0, s0, next0, pages1, s1, next0 + 1, pager.pages, shape, pager.nextID);
      StaysTrans(pages0, pages1, pager.pages, [], [], n, upKey);
      if saved {
        NodesGrow(pages1, s1, next0 + 1, pager.pages, shape, pager.nextID);
        WrittenTrans(pages0, pages1, s1, pager.pages, shape);
      }
    }
  }

  /** sort.Search for the first key greater than the given one. */
  method SearchAfter(keys: seq<Bytes>, key: Bytes) returns (i: nat)
    requires Sorted(keys)
    ensures i <= |keys|
    ensures forall j :: 0 <= j < i ==> Rank(keys[j]) <= Rank(key)
    ensures forall j :: i <= j < |keys| ==> Rank(key) < Rank(keys[j])
  {
    i := 0;
    var hi := |keys|;
    while i < hi
      invariant i <= hi <= |keys|
      invariant forall j :: 0 <= j < i ==> Rank(keys[j]) <= Rank(key)
      invariant forall j :: hi <= j < |keys| ==> Rank(key) < Rank(keys[j])
    {
      var mid := (i + hi) / 2;
      CompareIsRank(key, keys[mid]);
      if KeyCompare(key, keys[mid]) < 0 {
        hi := mid;
      } else {
        i := mid + 1;
      }
    }
  }

  /** sort.Search for the first key not less than the given one. */
  method SearchFrom(keys: seq<Bytes>, key: Bytes) returns (i: nat)
    requires Sorted(keys)
    ensures i <= |keys|
    ensures forall j :: 0 <= j < i ==> Rank(keys[j]) < Rank(key)
    ensures forall j :: i <= j < |keys| ==> Rank(key) <= Rank(keys[j])
    ensures i < |keys| && keys[i] == key <==> key in keys
  {
    i := 0;
    var hi := |keys|;
    while i < hi
      invariant i <= hi <= |keys|
      invariant forall j :: 0 <= j < i ==> Rank(keys[j]) < Rank(key)
      invariant forall j :: hi <= j < |keys| ==> Rank(key) <= Rank(keys[j])
    {
      var mid := (i + hi) / 2;
      CompareIsRank(keys[mid], key);
      if KeyCompare(keys[mid], key) >= 0 {
        hi := mid;
      } else {
        i := mid + 1;
      }
    }
    if key in keys {
      var j :| 0 <= j < |keys| && keys[j] == key;
      StrictlyBelow(keys, i, j);
      CompareIsRank(keys[i], keys[j]);
    }
  }

  /** All entries that do not rank below the leaf of {0}. */
  ghost predicate ListsFromProbe(keys: seq<Bytes>, values: seq<Bytes>, m: map<Bytes, Bytes>) {
    exists from: real :: 0.0 <= from <= Rank(FIRST_PROBE) && Listing(keys, values, m, from, 1.0)
  }

  /** Only the empty key ranks below {0}. */
  lemma ListsAll(keys: seq<Bytes>, values: seq<Bytes>, m: map<Bytes, Bytes>, from: real)
    requires 0.0 <= from <= Rank(FIRST_PROBE) && Listing(keys, values, m, from, 1.0)
    ensures ListsFromProbe(keys, values, m)
    ensures [] !in m ==> Listing(keys, values, m, 0.0, 1.0)
  {
    hide Rank;
    forall k | k in m && k != []
      ensures from <= Rank(k)
    {
      AboveZeroKey(k);
    }
  }

  /** The pages at or above a rank: what is left of a walk along the leaves. */
  ghost function From(s: Shape, x: real): set<PageID> {
    set p | p in s.nodes && x <= s.nodes[p].lo
  }

  lemma NothingListed(m: map<Bytes, Bytes>, x: real)
    ensures Listing([], [], m, x, x)
  {
  }

  lemma InItsLeaf(pages: PageMap, s: Shape, root: PageID, leaf: Page, key: Bytes)
    requires TreeOk(pages, s, root, {}) && leaf.id in s.nodes && leaf == Load(pages, leaf.id)
    requires s.nodes[leaf.id].level == 0 && Covers(s.nodes[leaf.id], key)
    ensures key in s.contents <==> key in leaf.keys
  {
  }

  lemma EntryCovered(leaf: Page, s: Shape, n: Info, i: nat)
    requires LeafOk(leaf, s, n, MAX_CHILDREN - 1) && i < |leaf.keys|
    ensures Covers(n, leaf.keys[i])
  {
  }

  lemma LeafDrops(pages: PageMap, s: Shape, root: PageID, leaf: Page, i: nat)
    requires TreeOk(pages, s, root, {}) && leaf.id in s.nodes && leaf == Load(pages, leaf.id)
    requires s.nodes[leaf.id].level == 0
    requires i < |leaf.keys| == |leaf.values|
    ensures TreeOk(pages[leaf.id := WithoutEntry(leaf, i)], s.(contents := s.contents - {leaf.keys[i]}), root, {})
  {
    hide LeafOk, InternalOk, Layout, Sorted, Rank;
    var n := s.nodes[leaf.id];
    assert LeafOk(leaf, s, n, MAX_CHILDREN - 1);
    EntryCovered(leaf, s, n, i);
    RemoveAt(leaf.keys, i);
    RemoveAt(leaf.values, i);
    EntryOutOfLeaf(leaf, s, n, i, WithoutEntry(leaf, i), MAX_CHILDREN - 1);
    LeafRewritten(pages, s, root, WithoutEntry(leaf, i), s.(contents := s.contents - {leaf.keys[i]}), {});
  }

  lemma FitsWithout(leaf: Page, i: nat, pageSize: nat)
    requires leaf.isLeaf && i < |leaf.keys| == |leaf.values| && Fits(leaf, pageSize)
    ensures Fits(WithoutEntry(leaf, i), pageSize)
  {
    LengthWithout(leaf.keys, i);
    LengthWithout(leaf.values, i);
  }

  lemma {:induction false} LengthWithout(parts: seq<Bytes>, i: nat)
    requires i < |parts|
    ensures TotalLength(parts[..i] + parts[i + 1..]) <= TotalLength(parts)
  {
    if i == 0 {
      assert parts[..0] + parts[1..] == parts[1..];
    } else {
      LengthWithout(parts[1..], i - 1);
      assert (parts[..i] + parts[i + 1..])[1..] == parts[1..][..i - 1] + parts[1..][i..];
    }
  }

  /* ---- first, last and next keys ---- */

  ghost predicate IsGreatest(key: Bytes, m: map<Bytes, Bytes>) {
    key in m && forall k :: k in m ==> Rank(k) <= Rank(key)
  }

  /** The keys of a table: eight-byte encodings of positive row IDs. */
  ghost predicate RowKeys(m: map<Bytes, Bytes>) {
    forall k :: k in m ==> |k| == 8 && 1 <= DecodeKey(k)
  }

  ghost predicate AboveAll(rowID: int, m: map<Bytes, Bytes>) {
    forall k :: k in m && |k| == 8 ==> DecodeKey(k) < rowID
  }

  ghost predicate ProbeLeafEmpty(pages: PageMap, s: Shape) {
    exists p :: p in s.nodes && s.nodes[p].level == 0 && Covers(s.nodes[p], LAST_PROBE) && Load(pages, p).keys == []
  }

  /** The ID that follows the last key as it is found: 1 after an emptied probe
      leaf, one more than the greatest row ID otherwise. */
  ghost predicate NextAfter(pages: PageMap, s: Shape, next: int) {
    && (ProbeLeafEmpty(pages, s) ==> next == 1)
    && (RowKeys(s.contents) && !ProbeLeafEmpty(pages, s) ==>
          exists k :: IsGreatest(k, s.contents) && 8 <= |k| && next == ToInt64(DecodeKey(k) + 1))
  }

  ghost predicate TailFilled(pages: PageMap, s: Shape) {
    forall p :: p in s.nodes && s.nodes[p].level == 0 && Rank(LAST_PROBE) < s.nodes[p].hi ==> Load(pages, p).keys != []
  }

  lemma TailFilledAt(pages: PageMap, s: Shape, p: PageID)
    requires TailFilled(pages, s) && p in s.nodes && s.nodes[p].level == 0 && Rank(LAST_PROBE) < s.nodes[p].hi
    ensures Load(pages, p).keys != []
  {
  }

  lemma DenseLeafFilled(pages: PageMap, s: Shape, root: PageID, leaf: Page)
    requires TreeOk(pages, s, root, {}) && Dense(pages, s, root) && s.contents != map[]
    requires leaf.id in s.nodes && leaf == Load(pages, leaf.id) && s.nodes[leaf.id].level == 0
    ensures leaf.keys != []
  {
    if leaf.id == root {
      var k :| k in s.contents;
      assert Covers(s.nodes[root], k);
    }
  }

  /** Without deletes no leaf is empty, so the last key is the greatest. */
  lemma DenseTailFilled(pages: PageMap, s: Shape, root: PageID)
    requires TreeOk(pages, s, root, {}) && Dense(pages, s, root) && s.contents != map[]
    ensures TailFilled(pages, s) && !ProbeLeafEmpty(pages, s)
  {
    hide PageOk, Layout, Rank, Dense;
    forall p | p in s.nodes && s.nodes[p].level == 0
      ensures Load(pages, p).keys != []
    {
      DenseLeafFilled(pages, s, root, Load(pages, p));
    }
  }

  /** Row keys rank above the key of row zero. */
  lemma ZeroBelowRows(m: map<Bytes, Bytes>)
    requires RowKeys(m)
    ensures [] !in m
    ensures forall k :: k in m ==> Rank(EncodeKey(0)) < Rank(k)
  {
    hide Rank, BE, BEValue;
    forall k | k in m
      ensures Rank(EncodeKey(0)) < Rank(k)
    {
      KeyOfDecoded(k);
      KeyOrder(0, DecodeKey(k));
    }
  }

  lemma FirstOfProbe(pages: PageMap, s: Shape, root: PageID, leaf: Page)
    requires TreeOk(pages, s, root, {}) && [] !in s.contents
    requires leaf.id in s.nodes && leaf == Load(pages, leaf.id) && s.nodes[leaf.id].level == 0
    requires Covers(s.nodes[leaf.id], FIRST_PROBE) && leaf.keys != []
    ensures leaf.keys[0] in s.contents && forall k :: k in s.contents ==> Rank(leaf.keys[0]) <= Rank(k)
  {
    forall k | k in s.contents
      ensures Rank(leaf.keys[0]) <= Rank(k)
    {
      AboveZeroKey(k);
      if Covers(s.nodes[leaf.id], k) {
        var j :| 0 <= j < |leaf.keys| && leaf.keys[j] == k;
        StrictlyBelow(leaf.keys, 0, j);
      }
    }
  }

  lemma EmptyProbe(pages: PageMap, s: Shape, leaf: Page)
    requires leaf.id in s.nodes && leaf == Load(pages, leaf.id) && s.nodes[leaf.id].level == 0
    requires Covers(s.nodes[leaf.id], LAST_PROBE) && leaf.keys == []
    ensures ProbeLeafEmpty(pages, s)
  {
  }

  lemma OneProbeLeaf(pages: PageMap, s: Shape, root: PageID, leaf: Page)
    requires TreeOk(pages, s, root, {}) && leaf.id in s.nodes && leaf == Load(pages, leaf.id)
    requires s.nodes[leaf.id].level == 0 && Covers(s.nodes[leaf.id], LAST_PROBE) && leaf.keys != []
    ensures !ProbeLeafEmpty(pages, s)
  {
    hide PageOk, Rank;
    forall p | p in s.nodes && s.nodes[p].level == 0 && Covers(s.nodes[p], LAST_PROBE)
      ensures Load(pages, p).keys != []
    {
      if p != leaf.id {
        NotBothCover(s, p, leaf.id, LAST_PROBE);
      }
    }
  }

  lemma NotBothCover(s: Shape, p: PageID, q: PageID, key: Bytes)
    requires Layout(s) && p in s.nodes && q in s.nodes && p != q && s.nodes[p].level == s.nodes[q].level
    ensures !(Covers(s.nodes[p], key) && Covers(s.nodes[q], key))
  {
  }

  lemma GreatestOfLast(m: map<Bytes, Bytes>, keys: seq<Bytes>, values: seq<Bytes>, n: Info)
    requires Listing(keys, values, m, n.lo, n.hi) && n.hi == 1.0 && keys != []
    ensures IsGreatest(keys[|keys| - 1], m)
  {
    var last := keys[|keys| - 1];
    forall k | k in m
      ensures Rank(k) <= Rank(last)
    {
      if n.lo <= Rank(k) {
        var j :| 0 <= j < |keys| && keys[j] == k;
        StrictlyBelow(keys, j, |keys| - 1);
        StrictlyBelow(keys, |keys| - 1, j);
      }
    }
  }

  lemma GreatestOfRows(m: map<Bytes, Bytes>, keys: seq<Bytes>, values: seq<Bytes>, n: Info)
    requires Listing(keys, values, m, n.lo, n.hi) && Rank(LAST_PROBE) < n.hi <= 1.0 && keys != [] && RowKeys(m)
    ensures IsGreatest(keys[|keys| - 1], m)
  {
    hide Rank;
    forall k | k in m
      ensures Rank(k) < n.hi
    {
      BelowLastProbe(k);
    }
    ListingToTop(m, keys, values, n);
    GreatestOfLast(m, keys, values, n.(hi := 1.0));
  }

  lemma ListingToTop(m: map<Bytes, Bytes>, keys: seq<Bytes>, values: seq<Bytes>, n: Info)
    requires Listing(keys, values, m, n.lo, n.hi) && n.hi <= 1.0
    requires forall k :: k in m ==> Rank(k) < n.hi
    ensures Listing(keys, values, m, n.lo, 1.0)
  {
  }

  lemma BelowLastProbe(k: Bytes)
    requires |k| == 8
    ensures Rank(k) <= Rank(LAST_PROBE)
  {
    hide Rank;
    HighestRank(k, LAST_PROBE);
  }

  lemma OneAboveGreatest(g: Bytes, m: map<Bytes, Bytes>)
    requires IsGreatest(g, m) && RowKeys(m) && EncodeKey(TWO_63 - 1) !in m
    ensures AboveAll(ToInt64(DecodeKey(g) + 1), m)
    ensures ToInt64(DecodeKey(g) + 1) == DecodeKey(g) + 1
  {
    hide Rank, BE, BEValue;
    KeyOfDecoded(g);
    forall k | k in m
      ensures DecodeKey(k) <= DecodeKey(g)
    {
      KeyOfDecoded(k);
      KeyOrder(DecodeKey(g), DecodeKey(k));
    }
  }

  lemma NextIsAbove(pages: PageMap, s: Shape, next: int)
    requires RowKeys(s.contents) && EncodeKey(TWO_63 - 1) !in s.contents
    requires NextAfter(pages, s, next)
    ensures AboveAll(next, s.contents) <==> s.contents == map[] || !ProbeLeafEmpty(pages, s)
  {
    hide Rank, ProbeLeafEmpty, EncodeKey, DecodeKey;
    if !ProbeLeafEmpty(pages, s) {
      var g :| IsGreatest(g, s.contents) && 8 <= |g| && next == ToInt64(DecodeKey(g) + 1);
      OneAboveGreatest(g, s.contents);
    } else if s.contents != map[] {
      var k :| k in s.contents;
      assert |k| == 8 && 1 <= DecodeKey(k);
    }
  }

  lemma Descends(pg: Page, s: Shape, n: Info, key: Bytes, i: nat)
    requires PageOk(pg, s, n, MAX_CHILDREN) && !pg.isLeaf && Covers(n, key)
    requires i <= |pg.keys|
    requires forall j :: 0 <= j < i ==> Rank(pg.keys[j]) <= Rank(key)
    requires forall j :: i <= j < |pg.keys| ==> Rank(key) < Rank(pg.keys[j])
    ensures i < |pg.children| && pg.children[i] in s.nodes
    ensures Covers(s.nodes[pg.children[i]], key) && s.nodes[pg.children[i]].level == n.level - 1
  {
    assert s.nodes[pg.children[i]] == ChildInfo(pg.keys, n, i);
  }

  lemma PathGrows(pages: PageMap, s: Shape, root: PageID, path: seq<PathEntry>, id: PageID, i: nat)
    requires PathOk(pages, s, root, path, id)
    requires i < |Load(pages, id).children| && Load(pages, id).children[i] in s.nodes
    requires s.nodes[Load(pages, id).children[i]].level == s.nodes[id].level - 1
    ensures PathOk(pages, s, root, path + [PathEntry(id, i)], Load(pages, id).children[i])
  {
    var child := Load(pages, id).children[i];
    var path' := path + [PathEntry(id, i)];
    forall j | 0 <= j < |path'|
      ensures StepOk(pages, s, path'[j], Below(path', j, child), s.nodes[child].level + |path'| - j)
    {
      if j < |path| {
        assert StepOk(pages, s, path[j], Below(path, j, id), s.nodes[id].level + |path| - j);
      }
    }
  }
}

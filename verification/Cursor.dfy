/** Range scans along the chained leaves. */
module Cursors {
  import opened Options
  import opened Bytes
  import opened Pages
  import opened TreeShape
  import opened TreeFacts
  import opened BTree

  /** keys and values are, in ascending order, exactly the entries of m from start to end inclusive. */
  ghost predicate ScanOf(keys: seq<Bytes>, values: seq<Bytes>, m: map<Bytes, Bytes>, start: Bytes, end: Bytes) {
    && |keys| == |values|
    && Sorted(keys)
    && (forall i :: 0 <= i < |keys| ==>
          keys[i] in m && m[keys[i]] == values[i] && Rank(start) <= Rank(keys[i]) <= Rank(end))
    && (forall k :: k in m && Rank(start) <= Rank(k) <= Rank(end) ==> k in keys)
  }

  /** The rank up to which a scan standing at entry idx of a leaf has seen everything. */
  ghost function Seen(leaf: Page, n: Info, idx: nat): real {
    if idx < |leaf.keys| then Rank(leaf.keys[idx]) else n.hi
  }

  ghost predicate UpTo(keys: seq<Bytes>, end: Bytes) {
    forall i :: 0 <= i < |keys| ==> Rank(keys[i]) <= Rank(end)
  }

  class Cursor {
    const tree: Tree
    const start: Bytes
    const end: Bytes
    var leaf: Option<Page>
    var idx: nat
    var started: bool
    ghost var keys: seq<Bytes>
    ghost var values: seq<Bytes>

    constructor (tree: Tree, start: Bytes, end: Bytes)
      requires tree.Valid()
      ensures this.tree == tree && this.start == start && this.end == end
      ensures Valid() && keys == [] && values == []
    {
      this.tree, this.start, this.end := tree, start, end;
      leaf, idx, started := None, 0, false;
      keys, values := [], [];
    }

    ghost predicate Valid()
      reads this, tree, tree.pager
    {
      tree.Valid() && Standing(tree.pager.pages, tree.shape, leaf, idx, started, keys, values, start, end)
    }

    /** The next entry of the range, or, at the end, nothing ever again. */
    method Next() returns (key: Bytes, value: Bytes, ok: bool)
      requires Valid()
      modifies this
      ensures Valid() && started
      ensures ok ==> keys == old(keys) + [key] && values == old(values) + [value]
      ensures !ok ==> leaf == None && keys == old(keys) && values == old(values)
      ensures !ok ==> ScanOf(keys, values, tree.shape.contents, start, end)
      ensures old(started && leaf.None?) ==> !ok
    {
      hide TreeOk, Rank, ScanOf, Standing, KeyCompare, Tree.OwnedBy, Sorted, Covers, PathOk, Load;
      ghost var pages, s, root := tree.pager.pages, tree.shape, tree.rootID;
      key, value, ok := [], [], false;
      if !started {
        var l, _ := tree.FindLeaf(start);
        LeafShape(pages, s, root, {}, l);
        idx := SearchFrom(l.keys, start);
        StandsAtStart(pages, s, root, l, idx, leaf, keys, values, start, end);
        leaf := Some(l);
        started := true;
      }
      while leaf.Some?
        invariant started && Valid() && keys == old(keys) && values == old(values)
        invariant old(started && leaf.None?) ==> leaf.None?
        decreases if leaf.Some? && leaf.value.id in s.nodes then From(s, s.nodes[leaf.value.id].lo) else {}, leaf.Some?
      {
        var l := leaf.value;
        StandsInLeaf(pages, s, root, l, idx, keys, values, start, end);
        if idx >= |l.keys| {
          if l.nextLeaf == 0 {
            StandsAtTop(pages, s, root, l, idx, keys, values, start, end);
            leaf := None;
            return;
          }
          var next := tree.LoadPage(l.nextLeaf);
          StandsInNext(pages, s, root, l, idx, next, keys, values, start, end);
          leaf := Some(next);
          idx := 0;
          continue;
        }
        var k := l.keys[idx];
        CompareIsRank(k, end);
        if KeyCompare(k, end) > 0 {
          StandsPastEnd(pages, s, root, l, idx, keys, values, start, end);
          leaf := None;
          return;
        }
        StandsAfter(pages, s, root, l, idx, keys, values, start, end);
        var v := l.values[idx];
        idx := idx + 1;
        keys := keys + [k];
        values := values + [v];
        return k, v, true;
      }
      StandsEnded(pages, s, idx, keys, values, start, end);
    }
  }

  ghost predicate AtLeaf(pages: PageMap, s: Shape, pg: Page) {
    pg.id in s.nodes && s.nodes[pg.id].level == 0 && pg == Load(pages, pg.id)
  }

  /** What a cursor has yielded so far lists the tree's entries from start up to
      where it stands; once it has ended, up to end. */
  ghost predicate Standing(pages: PageMap, s: Shape, leaf: Option<Page>, idx: nat, started: bool,
                           keys: seq<Bytes>, values: seq<Bytes>, start: Bytes, end: Bytes) {
    && (!started ==> keys == [] && values == [])
    && (started && leaf.None? ==> ScanOf(keys, values, s.contents, start, end))
    && (started && leaf.Some? ==>
          && AtLeaf(pages, s, leaf.value)
          && idx <= |leaf.value.keys|
          && Rank(start) <= Seen(leaf.value, s.nodes[leaf.value.id], idx)
          && Listing(keys, values, s.contents, Rank(start), Seen(leaf.value, s.nodes[leaf.value.id], idx))
          && UpTo(keys, end))
  }

  lemma StandsAtStart(pages: PageMap, s: Shape, root: PageID, leaf: Page, idx: nat, before: Option<Page>,
                      keys: seq<Bytes>, values: seq<Bytes>, start: Bytes, end: Bytes)
    requires TreeOk(pages, s, root, {}) && AtLeaf(pages, s, leaf) && Covers(s.nodes[leaf.id], start)
    requires exists i :: Standing(pages, s, before, i, false, keys, values, start, end)
    requires idx <= |leaf.keys|
    requires forall j :: 0 <= j < idx ==> Rank(leaf.keys[j]) < Rank(start)
    requires forall j :: idx <= j < |leaf.keys| ==> Rank(start) <= Rank(leaf.keys[j])
    ensures Standing(pages, s, Some(leaf), idx, true, keys, values, start, end)
  {
    hide TreeOk;
    NothingBefore(pages, s, root, leaf, start, idx);
  }

  lemma StandsInLeaf(pages: PageMap, s: Shape, root: PageID, leaf: Page, idx: nat,
                     keys: seq<Bytes>, values: seq<Bytes>, start: Bytes, end: Bytes)
    requires TreeOk(pages, s, root, {}) && Standing(pages, s, Some(leaf), idx, true, keys, values, start, end)
    ensures leaf.id in s.nodes && idx <= |leaf.keys| == |leaf.values|
  {
    LeafShape(pages, s, root, {}, leaf);
  }

  lemma StandsAtTop(pages: PageMap, s: Shape, root: PageID, leaf: Page, idx: nat,
                    keys: seq<Bytes>, values: seq<Bytes>, start: Bytes, end: Bytes)
    requires TreeOk(pages, s, root, {}) && Standing(pages, s, Some(leaf), idx, true, keys, values, start, end)
    requires idx == |leaf.keys| && leaf.nextLeaf == 0
    ensures Standing(pages, s, None, idx, true, keys, values, start, end)
    ensures ScanOf(keys, values, s.contents, start, end)
  {
    hide TreeOk;
    LeafLists(pages, s, root, leaf);
  }

  lemma StandsInNext(pages: PageMap, s: Shape, root: PageID, leaf: Page, idx: nat, next: Page,
                     keys: seq<Bytes>, values: seq<Bytes>, start: Bytes, end: Bytes)
    requires TreeOk(pages, s, root, {}) && Standing(pages, s, Some(leaf), idx, true, keys, values, start, end)
    requires idx == |leaf.keys| && leaf.nextLeaf != 0 && next == Load(pages, leaf.nextLeaf)
    ensures Standing(pages, s, Some(next), 0, true, keys, values, start, end)
    ensures leaf.id in s.nodes && next.id in s.nodes
    ensures From(s, s.nodes[next.id].lo) < From(s, s.nodes[leaf.id].lo)
  {
    hide TreeOk, Listing, UpTo;
    LeafLists(pages, s, root, leaf);
    LeafLists(pages, s, root, next);
    NextLeafBegins(next.keys, next.values, keys, values, s.contents, Rank(start), s.nodes[next.id]);
    assert leaf.id in From(s, s.nodes[leaf.id].lo) && leaf.id !in From(s, s.nodes[next.id].lo);
  }

  lemma StandsPastEnd(pages: PageMap, s: Shape, root: PageID, leaf: Page, idx: nat,
                      keys: seq<Bytes>, values: seq<Bytes>, start: Bytes, end: Bytes)
    requires Standing(pages, s, Some(leaf), idx, true, keys, values, start, end)
    requires idx < |leaf.keys| && Rank(end) < Rank(leaf.keys[idx])
    ensures Standing(pages, s, None, idx, true, keys, values, start, end)
    ensures ScanOf(keys, values, s.contents, start, end)
  {
  }

  lemma StandsAfter(pages: PageMap, s: Shape, root: PageID, leaf: Page, idx: nat,
                    keys: seq<Bytes>, values: seq<Bytes>, start: Bytes, end: Bytes)
    requires TreeOk(pages, s, root, {}) && Standing(pages, s, Some(leaf), idx, true, keys, values, start, end)
    requires idx < |leaf.keys| == |leaf.values| && Rank(leaf.keys[idx]) <= Rank(end)
    ensures Standing(pages, s, Some(leaf), idx + 1, true, keys + [leaf.keys[idx]], values + [leaf.values[idx]], start,
                     end)
  {
    hide TreeOk, Listing, UpTo;
    LeafLists(pages, s, root, leaf);
    YieldsOne(leaf, s.nodes[leaf.id], idx, keys, values, s.contents, Rank(start), end);
  }

  lemma StandsEnded(pages: PageMap, s: Shape, idx: nat, keys: seq<Bytes>, values: seq<Bytes>, start: Bytes, end: Bytes)
    requires Standing(pages, s, None, idx, true, keys, values, start, end)
    ensures ScanOf(keys, values, s.contents, start, end)
  {
  }

  lemma NothingBefore(pages: PageMap, s: Shape, root: PageID, leaf: Page, start: Bytes, idx: nat)
    requires TreeOk(pages, s, root, {}) && leaf.id in s.nodes && leaf == Load(pages, leaf.id)
    requires s.nodes[leaf.id].level == 0 && Covers(s.nodes[leaf.id], start)
    requires idx <= |leaf.keys|
    requires forall j :: 0 <= j < idx ==> Rank(leaf.keys[j]) < Rank(start)
    requires forall j :: idx <= j < |leaf.keys| ==> Rank(start) <= Rank(leaf.keys[j])
    ensures Listing([], [], s.contents, Rank(start), Seen(leaf, s.nodes[leaf.id], idx))
    ensures Rank(start) <= Seen(leaf, s.nodes[leaf.id], idx)
  {
    hide Rank, TreeOk, Listing;
    LeafLists(pages, s, root, leaf);
    NothingBelow(leaf, s.nodes[leaf.id], s.contents, start, idx);
  }

  lemma NothingBelow(leaf: Page, n: Info, m: map<Bytes, Bytes>, start: Bytes, idx: nat)
    requires Listing(leaf.keys, leaf.values, m, n.lo, n.hi) && Covers(n, start) && idx <= |leaf.keys|
    requires forall j :: 0 <= j < idx ==> Rank(leaf.keys[j]) < Rank(start)
    requires forall j :: idx <= j < |leaf.keys| ==> Rank(start) <= Rank(leaf.keys[j])
    ensures Listing([], [], m, Rank(start), Seen(leaf, n, idx)) && Rank(start) <= Seen(leaf, n, idx)
  {
    hide Rank, Listing;
    SeenInside(leaf, n, m, idx);
    forall k | k in m && Rank(start) <= Rank(k)
      ensures Seen(leaf, n, idx) <= Rank(k)
    {
      if Rank(k) < n.hi {
        var j := ListedAt(leaf.keys, leaf.values, m, n.lo, n.hi, k);
        if idx < |leaf.keys| {
          StrictlyBelow(leaf.keys, j, idx);
        }
      }
    }
    ListsNone(m, Rank(start), Seen(leaf, n, idx));
  }

  lemma ListsNone(m: map<Bytes, Bytes>, lo: real, hi: real)
    requires forall k :: k in m && lo <= Rank(k) ==> hi <= Rank(k)
    ensures Listing([], [], m, lo, hi)
  {
    hide Rank;
  }

  lemma ListedAt(keys: seq<Bytes>, values: seq<Bytes>, m: map<Bytes, Bytes>, lo: real, hi: real, k: Bytes)
    returns (j: nat)
    requires Listing(keys, values, m, lo, hi) && k in m && lo <= Rank(k) < hi
    ensures j < |keys| && keys[j] == k && Sorted(keys)
  {
    hide Rank, Sorted;
    j :| 0 <= j < |keys| && keys[j] == k;
  }

  lemma SeenInside(leaf: Page, n: Info, m: map<Bytes, Bytes>, idx: nat)
    requires Listing(leaf.keys, leaf.values, m, n.lo, n.hi) && idx <= |leaf.keys|
    ensures Seen(leaf, n, idx) <= n.hi
  {
    hide Rank, Sorted;
  }

  lemma NextLeafBegins(lk: seq<Bytes>, lv: seq<Bytes>, keys: seq<Bytes>, values: seq<Bytes>,
                       m: map<Bytes, Bytes>, lo: real, n: Info)
    requires Listing(lk, lv, m, n.lo, n.hi) && Listing(keys, values, m, lo, n.lo) && n.lo < n.hi
    ensures Listing(keys, values, m, lo, if lk == [] then n.hi else Rank(lk[0]))
    ensures n.lo <= if lk == [] then n.hi else Rank(lk[0])
  {
    hide Rank;
    var hi := if lk == [] then n.hi else Rank(lk[0]);
    forall k | k in m && n.lo <= Rank(k)
      ensures hi <= Rank(k)
    {
      if lk != [] && Rank(k) < n.hi {
        var j :| 0 <= j < |lk| && lk[j] == k;
        StrictlyBelow(lk, j, 0);
      }
    }
    assert lk != [] ==> n.lo <= Rank(lk[0]);
  }

  lemma YieldsOne(leaf: Page, n: Info, idx: nat, keys: seq<Bytes>, values: seq<Bytes>, m: map<Bytes, Bytes>, lo: real,
                  end: Bytes)
    requires idx < |leaf.keys| && Listing(leaf.keys, leaf.values, m, n.lo, n.hi)
    requires Listing(keys, values, m, lo, Seen(leaf, n, idx)) && UpTo(keys, end) && Rank(leaf.keys[idx]) <= Rank(end)
    requires lo <= Seen(leaf, n, idx)
    ensures Listing(keys + [leaf.keys[idx]], values + [leaf.values[idx]], m, lo, Seen(leaf, n, idx + 1))
    ensures UpTo(keys + [leaf.keys[idx]], end)
    ensures Seen(leaf, n, idx) <= Seen(leaf, n, idx + 1)
  {
    hide Rank;
    OneListed(leaf, n, idx, m);
    ListingJoins(keys, values, [leaf.keys[idx]], [leaf.values[idx]], m, lo, Rank(leaf.keys[idx]),
                 Seen(leaf, n, idx + 1));
  }

  lemma SortedOne(k: Bytes)
    ensures Sorted([k])
  {
  }

  lemma ListedIn(leaf: Page, n: Info, idx: nat, m: map<Bytes, Bytes>)
    requires idx < |leaf.keys| && Listing(leaf.keys, leaf.values, m, n.lo, n.hi)
    ensures n.lo <= Rank(leaf.keys[idx]) < Seen(leaf, n, idx + 1) <= n.hi
  {
    hide Rank;
    if idx + 1 < |leaf.keys| {
      StrictlyBelow(leaf.keys, idx, idx + 1);
    }
  }

  lemma OneListed(leaf: Page, n: Info, idx: nat, m: map<Bytes, Bytes>)
    requires idx < |leaf.keys| && Listing(leaf.keys, leaf.values, m, n.lo, n.hi)
    ensures Listing([leaf.keys[idx]], [leaf.values[idx]], m, Rank(leaf.keys[idx]), Seen(leaf, n, idx + 1))
    ensures Rank(leaf.keys[idx]) <= Seen(leaf, n, idx + 1)
  {
    hide Rank, Sorted;
    var k := leaf.keys[idx];
    ListedIn(leaf, n, idx, m);
    SortedOne(k);
    forall k' | k' in m && Rank(k) <= Rank(k') < Seen(leaf, n, idx + 1)
      ensures k' == k
    {
      var j :| 0 <= j < |leaf.keys| && leaf.keys[j] == k';
      StrictlyBelow(leaf.keys, j, idx);
      if idx + 1 < |leaf.keys| {
        StrictlyBelow(leaf.keys, j, idx + 1);
      }
    }
  }
}

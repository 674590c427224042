/** The paged order-4 B+ tree: what it means for a page map to hold a tree, and
    why each rewriting step of an insertion keeps it. */
module TreeShape {
  import opened Bytes
  import opened Pages
  import opened Seqs

  const MAX_CHILDREN: nat := 4

  /** Where a page sits: its height above the leaves and the half-open interval
      of key ranks it is responsible for. */
  datatype Info = Info(level: nat, lo: real, hi: real)

  datatype Shape = Shape(nodes: map<PageID, Info>, contents: map<Bytes, Bytes>)

  type PageMap = map<PageID, Page>

  /** A page that was never written reads as an empty leaf. */
  function Load(pages: PageMap, id: PageID): Page {
    if id in pages then pages[id].(id := id) else EmptyLeaf(id)
  }

  ghost predicate Sorted(keys: seq<Bytes>) {
    forall i, j :: 0 <= i < j < |keys| ==> Rank(keys[i]) < Rank(keys[j])
  }

  ghost predicate Covers(n: Info, key: Bytes) {
    n.lo <= Rank(key) < n.hi
  }

  ghost predicate ChainOk(next: PageID, s: Shape, n: Info) {
    if n.hi == 1.0 then next == 0
    else next != 0 && next in s.nodes && s.nodes[next].level == 0 && s.nodes[next].lo == n.hi
  }

  ghost predicate LeafOk(pg: Page, s: Shape, n: Info, cap: nat) {
    && pg.isLeaf
    && |pg.keys| == |pg.values| == pg.numKeys <= cap
    && pg.children == []
    && Sorted(pg.keys)
    && (forall i :: 0 <= i < |pg.keys| ==> Covers(n, pg.keys[i]))
    && (forall i :: 0 <= i < |pg.keys| ==> pg.keys[i] in s.contents && s.contents[pg.keys[i]] == pg.values[i])
    && (forall k :: k in s.contents && Covers(n, k) ==> k in pg.keys)
    && ChainOk(pg.nextLeaf, s, n)
  }

  /** The interval of child i: separators bound their subtrees. */
  ghost function ChildInfo(keys: seq<Bytes>, n: Info, i: nat): Info
    requires 0 < n.level && i <= |keys|
  {
    Info(n.level - 1,
         if i == 0 then n.lo else Rank(keys[i - 1]),
         if i == |keys| then n.hi else Rank(keys[i]))
  }

  ghost predicate InternalOk(pg: Page, s: Shape, n: Info, cap: nat) {
    && 0 < n.level
    && !pg.isLeaf
    && 1 <= |pg.keys| == pg.numKeys <= cap
    && |pg.children| == |pg.keys| + 1
    && pg.values == [] && pg.nextLeaf == 0
    && Sorted(pg.keys)
    && (forall i :: 0 <= i < |pg.keys| ==> n.lo < Rank(pg.keys[i]) < n.hi)
    && (forall i :: 0 <= i < |pg.children| ==>
          pg.children[i] in s.nodes && s.nodes[pg.children[i]] == ChildInfo(pg.keys, n, i))
  }

  ghost predicate PageOk(pg: Page, s: Shape, n: Info, cap: nat) {
    if n.level == 0 then LeafOk(pg, s, n, cap) else InternalOk(pg, s, n, cap)
  }

  ghost predicate Apart(a: Info, b: Info) {
    a.level != b.level || a.hi <= b.lo || b.hi <= a.lo
  }

  /** Pages of one level own disjoint, non-empty intervals. */
  ghost predicate Layout(s: Shape) {
    && (forall p :: p in s.nodes ==> 0.0 <= s.nodes[p].lo < s.nodes[p].hi <= 1.0)
    && (forall p, q :: p in s.nodes && q in s.nodes && p != q ==> Apart(s.nodes[p], s.nodes[q]))
  }

  ghost predicate RootOk(s: Shape, root: PageID) {
    && root in s.nodes && s.nodes[root].lo == 0.0 && s.nodes[root].hi == 1.0
    && (forall p :: p in s.nodes ==> s.nodes[p].level <= s.nodes[root].level)
  }

  /** The page map holds a tree of shape s under root; pages in big may hold one
      key too many, because they are about to be split. */
  ghost predicate TreeOk(pages: PageMap, s: Shape, root: PageID, big: set<PageID>) {
    && Layout(s)
    && RootOk(s, root)
    && (forall p :: p in s.nodes ==>
          PageOk(Load(pages, p), s, s.nodes[p], if p in big then MAX_CHILDREN else MAX_CHILDREN - 1))
  }

  datatype PathEntry = PathEntry(pageID: PageID, index: nat)

  ghost predicate StepOk(pages: PageMap, s: Shape, e: PathEntry, below: PageID, level: int) {
    && e.pageID in s.nodes
    && s.nodes[e.pageID].level == level
    && e.index < |Load(pages, e.pageID).children|
    && Load(pages, e.pageID).children[e.index] == below
  }

  /** The page that step j of path leads to. */
  function Below(path: seq<PathEntry>, j: nat, id: PageID): PageID {
    if j + 1 < |path| then path[j + 1].pageID else id
  }

  /** path leads from the root down to the page id. */
  ghost predicate PathOk(pages: PageMap, s: Shape, root: PageID, path: seq<PathEntry>, id: PageID) {
    && id in s.nodes
    && (if path == [] then id == root else path[0].pageID == root)
    && (forall j :: 0 <= j < |path| ==>
          StepOk(pages, s, path[j], Below(path, j, id), s.nodes[id].level + |path| - j))
  }

  /* ---- the rewritten pages ---- */

  function WithEntry(leaf: Page, i: nat, key: Bytes, value: Bytes): Page
    requires i <= |leaf.keys| && i <= |leaf.values|
  {
    leaf.(keys := leaf.keys[..i] + [key] + leaf.keys[i..],
          values := leaf.values[..i] + [value] + leaf.values[i..],
          numKeys := |leaf.keys| + 1)
  }

  function WithValue(leaf: Page, i: nat, value: Bytes): Page
    requires i < |leaf.values|
  {
    leaf.(values := leaf.values[i := value], numKeys := |leaf.keys|)
  }

  function WithoutEntry(leaf: Page, i: nat): Page
    requires i < |leaf.keys| && i < |leaf.values|
  {
    leaf.(keys := leaf.keys[..i] + leaf.keys[i + 1..],
          values := leaf.values[..i] + leaf.values[i + 1..],
          numKeys := |leaf.keys| - 1)
  }

  function LeafLow(leaf: Page, id: PageID, mid: nat, rightID: PageID): Page
    requires mid <= |leaf.keys| && mid <= |leaf.values|
  {
    Page(id, true, mid, rightID, leaf.keys[..mid], leaf.values[..mid], [])
  }

  function LeafHigh(leaf: Page, mid: nat, rightID: PageID): Page
    requires mid <= |leaf.keys| && mid <= |leaf.values|
  {
    Page(rightID, true, |leaf.keys| - mid, leaf.nextLeaf, leaf.keys[mid..], leaf.values[mid..], [])
  }

  function NewRoot(root: PageID, key: Bytes, leftID: PageID, rightID: PageID): Page {
    Page(root, false, 1, 0, [key], [], [leftID, rightID])
  }

  function WithChild(parent: Page, i: nat, key: Bytes, rightID: PageID): Page
    requires i <= |parent.keys| && i < |parent.children|
  {
    parent.(keys := parent.keys[..i] + [key] + parent.keys[i..],
            children := parent.children[..i + 1] + [rightID] + parent.children[i + 1..],
            numKeys := |parent.keys| + 1)
  }

  function InternalLow(n: Page, mid: nat): Page
    requires mid < |n.keys| && mid < |n.children|
  {
    n.(keys := n.keys[..mid], children := n.children[..mid + 1], numKeys := mid)
  }

  function InternalHigh(n: Page, mid: nat, rightID: PageID): Page
    requires mid < |n.keys| && mid < |n.children|
  {
    Page(rightID, false, |n.keys| - mid - 1, 0, n.keys[mid + 1..], [], n.children[mid + 1..])
  }

  ghost predicate SameInside(s: Shape, s': Shape, n: Info) {
    && (forall k :: Covers(n, k) ==> (k in s.contents <==> k in s'.contents))
    && (forall k :: Covers(n, k) && k in s.contents && k in s'.contents ==> s.contents[k] == s'.contents[k])
  }

  ghost predicate SameOutside(s: Shape, s': Shape, n: Info) {
    && (forall k :: !Covers(n, k) ==> (k in s.contents <==> k in s'.contents))
    && (forall k :: !Covers(n, k) && k in s.contents && k in s'.contents ==> s.contents[k] == s'.contents[k])
  }

  /** A page that keeps its place stays well-formed when the shape changes
      elsewhere. */
  lemma PageOkElsewhere(pg: Page, s: Shape, s': Shape, n: Info, cap: nat)
    requires PageOk(pg, s, n, cap)
    requires n.level == 0 ==> SameInside(s, s', n)
    requires n.level == 0 && n.hi != 1.0 ==>
      pg.nextLeaf in s'.nodes && s'.nodes[pg.nextLeaf].level == 0 && s'.nodes[pg.nextLeaf].lo == n.hi
    requires n.level != 0 ==> forall i :: 0 <= i < |pg.children| ==>
      pg.children[i] in s'.nodes && s'.nodes[pg.children[i]] == s.nodes[pg.children[i]]
    ensures PageOk(pg, s', n, cap)
  {
  }

  /* ---- step 1: the leaf takes the entry ---- */

  ghost predicate EntryInserted(leaf: Page, i: nat, key: Bytes, value: Bytes, leaf': Page) {
    && leaf'.isLeaf == leaf.isLeaf && leaf'.nextLeaf == leaf.nextLeaf && leaf'.children == leaf.children
    && Inserted(leaf.keys, i, key, leaf'.keys)
    && Inserted(leaf.values, i, value, leaf'.values)
    && leaf'.numKeys == |leaf'.keys|
  }

  ghost predicate EntryRemoved(leaf: Page, i: nat, leaf': Page) {
    && leaf'.isLeaf == leaf.isLeaf && leaf'.nextLeaf == leaf.nextLeaf && leaf'.children == leaf.children
    && Removed(leaf.keys, i, leaf'.keys)
    && Removed(leaf.values, i, leaf'.values)
    && leaf'.numKeys == |leaf'.keys|
  }

  lemma SortedInsert(keys: seq<Bytes>, i: nat, key: Bytes, keys': seq<Bytes>)
    requires Sorted(keys) && Inserted(keys, i, key, keys')
    requires forall j :: 0 <= j < i ==> Rank(keys[j]) < Rank(key)
    requires forall j :: i <= j < |keys| ==> Rank(key) < Rank(keys[j])
    ensures Sorted(keys')
  {
    hide Rank, Inserted;
    forall a, b | 0 <= a < b < |keys'|
      ensures Rank(keys'[a]) < Rank(keys'[b])
    {
      InOrderInserted(keys, i, key, keys', a, b);
    }
  }

  lemma InOrderInserted(keys: seq<Bytes>, i: nat, key: Bytes, keys': seq<Bytes>, a: nat, b: nat)
    requires Sorted(keys) && Inserted(keys, i, key, keys') && a < b < |keys'|
    requires forall j :: 0 <= j < i ==> Rank(keys[j]) < Rank(key)
    requires forall j :: i <= j < |keys| ==> Rank(key) < Rank(keys[j])
    ensures Rank(keys'[a]) < Rank(keys'[b])
  {
    hide Rank, Sorted;
    if a != i && b != i {
      StrictlyBelow(keys, if a < i then a else a - 1, if b < i then b else b - 1);
    }
  }

  lemma SortedRemove(keys: seq<Bytes>, i: nat, keys': seq<Bytes>)
    requires Sorted(keys) && Removed(keys, i, keys')
    ensures Sorted(keys')
  {
    hide Rank;
  }

  lemma EntryIntoLeaf(leaf: Page, s: Shape, n: Info, i: nat, key: Bytes, value: Bytes, leaf': Page, cap: nat)
    requires LeafOk(leaf, s, n, cap) && Covers(n, key)
    requires EntryInserted(leaf, i, key, value, leaf')
    requires forall j :: 0 <= j < i ==> Rank(leaf.keys[j]) < Rank(key)
    requires forall j :: i <= j < |leaf.keys| ==> Rank(key) < Rank(leaf.keys[j])
    ensures LeafOk(leaf', s.(contents := s.contents[key := value]), n, cap + 1)
  {
    var s' := s.(contents := s.contents[key := value]);
    SortedInsert(leaf.keys, i, key, leaf'.keys);
    forall j | 0 <= j < |leaf'.keys|
      ensures Covers(n, leaf'.keys[j]) && leaf'.keys[j] in s'.contents && s'.contents[leaf'.keys[j]] == leaf'.values[j]
    {
      if j != i {
        assert Rank(leaf'.keys[j]) != Rank(key);
      }
    }
    forall k | k in s'.contents && Covers(n, k)
      ensures k in leaf'.keys
    {
      InsertedHas(leaf.keys, i, key, leaf'.keys, k);
    }
  }

  lemma ValueIntoLeaf(leaf: Page, s: Shape, n: Info, i: nat, value: Bytes, cap: nat)
    requires LeafOk(leaf, s, n, cap) && i < |leaf.keys|
    ensures LeafOk(WithValue(leaf, i, value), s.(contents := s.contents[leaf.keys[i] := value]), n, cap)
  {
    var s' := s.(contents := s.contents[leaf.keys[i] := value]);
    forall k | k in s'.contents && Covers(n, k)
      ensures k in leaf.keys
    {
      if k == leaf.keys[i] {
      }
    }
    forall j | 0 <= j < |leaf.keys|
      ensures s'.contents[leaf.keys[j]] == WithValue(leaf, i, value).values[j]
    {
      if j != i {
        assert Rank(leaf.keys[j]) != Rank(leaf.keys[i]);
      }
    }
  }

  lemma EntryOutOfLeaf(leaf: Page, s: Shape, n: Info, i: nat, leaf': Page, cap: nat)
    requires LeafOk(leaf, s, n, cap)
    requires EntryRemoved(leaf, i, leaf')
    ensures LeafOk(leaf', s.(contents := s.contents - {leaf.keys[i]}), n, cap)
  {
    var s' := s.(contents := s.contents - {leaf.keys[i]});
    SortedRemove(leaf.keys, i, leaf'.keys);
    forall j | 0 <= j < |leaf'.keys|
      ensures leaf'.keys[j] in s'.contents && s'.contents[leaf'.keys[j]] == leaf'.values[j]
    {
      assert Rank(leaf'.keys[j]) != Rank(leaf.keys[i]);
    }
    forall k | k in s'.contents && Covers(n, k)
      ensures k in leaf'.keys
    {
      RemovedHas(leaf.keys, i, leaf'.keys, k);
    }
  }

  /** Rewriting one leaf and the contents inside its interval keeps the tree. */
  lemma LeafRewritten(pages: PageMap, s: Shape, root: PageID, leaf: Page, s': Shape, big: set<PageID>)
    requires TreeOk(pages, s, root, {})
    requires leaf.id in s.nodes && s.nodes[leaf.id].level == 0
    requires big == {} || big == {leaf.id}
    requires s'.nodes == s.nodes
    requires SameOutside(s, s', s.nodes[leaf.id])
    requires LeafOk(leaf, s', s.nodes[leaf.id], if big == {} then MAX_CHILDREN - 1 else MAX_CHILDREN)
    ensures TreeOk(pages[leaf.id := leaf], s', root, big)
  {
    hide LeafOk, InternalOk;
    var pages' := pages[leaf.id := leaf];
    forall p | p in s'.nodes
      ensures PageOk(Load(pages', p), s', s'.nodes[p], if p in big then MAX_CHILDREN else MAX_CHILDREN - 1)
    {
      if p != leaf.id {
        assert Load(pages', p) == Load(pages, p);
        ElsewhereInLevel(Load(pages, p), s, s', leaf.id, p);
      }
    }
  }

  lemma ElsewhereInLevel(pg: Page, s: Shape, s': Shape, id: PageID, p: PageID)
    requires id in s.nodes && p in s.nodes && p != id && s.nodes[id].level == 0
    requires Apart(s.nodes[p], s.nodes[id])
    requires PageOk(pg, s, s.nodes[p], MAX_CHILDREN - 1)
    requires s'.nodes == s.nodes
    requires SameOutside(s, s', s.nodes[id])
    ensures PageOk(pg, s', s.nodes[p], MAX_CHILDREN - 1)
  {
    PageOkElsewhere(pg, s, s', s.nodes[p], MAX_CHILDREN - 1);
  }

  /* ---- step 2: a page splits, its parent not yet told ---- */

  ghost function SplitNode(s: Shape, id: PageID, sep: Bytes, rightID: PageID): Shape
    requires id in s.nodes
  {
    s.(nodes := s.nodes[id := s.nodes[id].(hi := Rank(sep))][rightID := s.nodes[id].(lo := Rank(sep))])
  }

  /** A page has split in two but its parent, the last page of path, still lists
      only the left half: everything else is in order, and the parent will be
      once it takes the separator. */
  ghost predicate Pending(pages: PageMap, s: Shape, root: PageID, path: seq<PathEntry>,
                          left: PageID, sep: Bytes, right: PageID) {
    && Layout(s)
    && left in s.nodes && right in s.nodes && left != right
    && s.nodes[left].level == s.nodes[right].level
    && s.nodes[left].hi == Rank(sep) == s.nodes[right].lo
    && (if path == [] then
          && left == root && s.nodes[left].lo == 0.0 && s.nodes[right].hi == 1.0
          && (forall p :: p in s.nodes ==> s.nodes[p].level <= s.nodes[left].level)
          && (forall p :: p in s.nodes ==> PageOk(Load(pages, p), s, s.nodes[p], MAX_CHILDREN - 1))
        else
          && RootOk(s, root)
          && PathOk(pages, s, root, path, left)
          && ParentWaits(pages, s, path[|path| - 1], sep, right)
          && (forall p :: p in s.nodes && p != path[|path| - 1].pageID ==>
                PageOk(Load(pages, p), s, s.nodes[p], MAX_CHILDREN - 1)))
  }

  ghost predicate ParentWaits(pages: PageMap, s: Shape, e: PathEntry, sep: Bytes, right: PageID) {
    var parent := Load(pages, e.pageID);
    && e.pageID in s.nodes
    && e.index <= |parent.keys| && e.index < |parent.children|
    && InternalOk(WithChild(parent, e.index, sep, right), s, s.nodes[e.pageID], MAX_CHILDREN)
  }

  lemma SplitKeepsLayout(s: Shape, id: PageID, sep: Bytes, right: PageID)
    requires Layout(s) && id in s.nodes && right !in s.nodes
    requires s.nodes[id].lo < Rank(sep) < s.nodes[id].hi
    ensures Layout(SplitNode(s, id, sep, right))
  {
  }

  /** No page is shared: two pages that list the same child are the same page. */
  lemma OneParent(p: PageID, pg: Page, q: PageID, qg: Page, s: Shape, cap: nat, c: PageID)
    requires Layout(s) && p in s.nodes && q in s.nodes && c in s.nodes
    requires PageOk(pg, s, s.nodes[p], cap) && PageOk(qg, s, s.nodes[q], cap)
    requires c in pg.children && c in qg.children
    ensures p == q
  {
    ChildInside(pg, s, s.nodes[p], cap, c);
    ChildInside(qg, s, s.nodes[q], cap, c);
  }

  lemma ChildInside(pg: Page, s: Shape, n: Info, cap: nat, c: PageID)
    requires PageOk(pg, s, n, cap) && c in pg.children
    ensures 0 < n.level && c in s.nodes
    ensures s.nodes[c].level == n.level - 1
    ensures n.lo <= s.nodes[c].lo && s.nodes[c].hi <= n.hi
  {
  }

  lemma ChildrenDiffer(pg: Page, s: Shape, n: Info, cap: nat, i: nat, j: nat)
    requires Layout(s) && InternalOk(pg, s, n, cap) && i < j < |pg.children|
    ensures pg.children[i] != pg.children[j]
  {
    assert s.nodes[pg.children[i]].hi == Rank(pg.keys[i]);
    assert Rank(pg.keys[i]) <= Rank(pg.keys[j - 1]);
    assert s.nodes[pg.children[j]].lo == Rank(pg.keys[j - 1]);
  }

  ghost predicate ChildInserted(parent: Page, i: nat, sep: Bytes, right: PageID, parent': Page) {
    && parent'.isLeaf == parent.isLeaf && parent'.values == parent.values && parent'.nextLeaf == parent.nextLeaf
    && Inserted(parent.keys, i, sep, parent'.keys)
    && Inserted(parent.children, i + 1, right, parent'.children)
    && parent'.numKeys == |parent'.keys|
  }

  lemma WithChildInserts(parent: Page, i: nat, sep: Bytes, right: PageID)
    requires i <= |parent.keys| && i < |parent.children|
    ensures ChildInserted(parent, i, sep, right, WithChild(parent, i, sep, right))
  {
    InsertAt(parent.keys, i, sep);
    InsertAt(parent.children, i + 1, right);
  }

  /** A parent that takes the separator of its split child is in order. */
  lemma ParentTakes(parent: Page, s: Shape, n: Info, i: nat, sep: Bytes, right: PageID, parent': Page)
    requires Layout(s) && InternalOk(parent, s, n, MAX_CHILDREN - 1) && i < |parent.children|
    requires right !in s.nodes
    requires ChildInserted(parent, i, sep, right, parent')
    requires s.nodes[parent.children[i]].lo < Rank(sep) < s.nodes[parent.children[i]].hi
    ensures InternalOk(parent', SplitNode(s, parent.children[i], sep, right), n, MAX_CHILDREN)
  {
    hide Rank, Sorted, ChildInfo;
    var id := parent.children[i];
    var s' := SplitNode(s, id, sep, right);
    ParentTakesKey(parent, s, n, i, sep, right, parent');
    hide Layout;
    forall j | 0 <= j < |parent'.children|
      ensures parent'.children[j] in s'.nodes && s'.nodes[parent'.children[j]] == ChildInfo(parent'.keys, n, j)
    {
      ParentTakesChild(parent, s, n, i, sep, right, parent', j);
    }
  }

  lemma ParentTakesKey(parent: Page, s: Shape, n: Info, i: nat, sep: Bytes, right: PageID, parent': Page)
    requires Layout(s) && InternalOk(parent, s, n, MAX_CHILDREN - 1) && i < |parent.children|
    requires ChildInserted(parent, i, sep, right, parent')
    requires s.nodes[parent.children[i]].lo < Rank(sep) < s.nodes[parent.children[i]].hi
    ensures Sorted(parent'.keys) && forall j :: 0 <= j < |parent'.keys| ==> n.lo < Rank(parent'.keys[j]) < n.hi
  {
    hide Rank, Layout;
    assert s.nodes[parent.children[i]] == ChildInfo(parent.keys, n, i);
    SortedInsert(parent.keys, i, sep, parent'.keys);
  }

  lemma ParentTakesChild(parent: Page, s: Shape, n: Info, i: nat, sep: Bytes, right: PageID, parent': Page, j: nat)
    requires Layout(s) && InternalOk(parent, s, n, MAX_CHILDREN - 1) && i < |parent.children|
    requires right !in s.nodes
    requires ChildInserted(parent, i, sep, right, parent')
    requires j < |parent'.children|
    ensures var s' := SplitNode(s, parent.children[i], sep, right);
      parent'.children[j] in s'.nodes && s'.nodes[parent'.children[j]] == ChildInfo(parent'.keys, n, j)
  {
    hide Rank, Sorted, Layout;
    assert s.nodes[parent.children[i]] == ChildInfo(parent.keys, n, i);
    if j < i {
      ChildrenDiffer(parent, s, n, MAX_CHILDREN - 1, j, i);
      assert s.nodes[parent.children[j]] == ChildInfo(parent.keys, n, j);
    } else if j > i + 1 {
      ChildrenDiffer(parent, s, n, MAX_CHILDREN - 1, i, j - 1);
      assert s.nodes[parent.children[j - 1]] == ChildInfo(parent.keys, n, j - 1);
    }
  }

  lemma StrictlyBelow(keys: seq<Bytes>, i: nat, j: nat)
    requires Sorted(keys) && i < |keys| && j < |keys|
    ensures i < j <==> Rank(keys[i]) < Rank(keys[j])
  {
    hide Rank;
  }

  lemma SortedSlice(keys: seq<Bytes>, a: nat, b: nat)
    requires Sorted(keys) && a <= b <= |keys|
    ensures Sorted(keys[a..b])
  {
    hide Rank;
  }

  /** Both halves of a split leaf are in order, chained one after the other. */
  lemma LeafHalves(leaf: Page, s: Shape, id: PageID, mid: nat, right: PageID)
    requires Layout(s) && id in s.nodes && s.nodes[id].level == 0 && LeafOk(leaf, s, s.nodes[id], MAX_CHILDREN)
    requires right !in s.nodes && right != 0
    requires 1 <= mid < |leaf.keys|
    ensures var sep := leaf.keys[mid]; var s' := SplitNode(s, id, sep, right);
      && s.nodes[id].lo < Rank(sep) < s.nodes[id].hi
      && LeafOk(LeafLow(leaf, id, mid, right), s', s'.nodes[id], MAX_CHILDREN - 1)
      && LeafOk(LeafHigh(leaf, mid, right), s', s'.nodes[right], MAX_CHILDREN - 1)
  {
    SepInside(leaf, s, s.nodes[id], mid);
    LowHalf(leaf, s, id, mid, right);
    HighHalf(leaf, s, id, mid, right);
  }

  lemma SepInside(leaf: Page, s: Shape, n: Info, mid: nat)
    requires LeafOk(leaf, s, n, MAX_CHILDREN) && 1 <= mid < |leaf.keys|
    ensures n.lo < Rank(leaf.keys[mid]) < n.hi
  {
    StrictlyBelow(leaf.keys, 0, mid);
  }

  lemma LowHalf(leaf: Page, s: Shape, id: PageID, mid: nat, right: PageID)
    requires id in s.nodes && s.nodes[id].level == 0 && LeafOk(leaf, s, s.nodes[id], MAX_CHILDREN)
    requires right !in s.nodes && right != 0
    requires 1 <= mid < |leaf.keys| && Rank(leaf.keys[mid]) < 1.0
    ensures var s' := SplitNode(s, id, leaf.keys[mid], right);
      LeafOk(LeafLow(leaf, id, mid, right), s', s'.nodes[id], MAX_CHILDREN - 1)
  {
    var s' := SplitNode(s, id, leaf.keys[mid], right);
    LeafSlice(leaf, LeafLow(leaf, id, mid, right), s, s.nodes[id], s', s'.nodes[id], 0, mid);
  }

  lemma HighHalf(leaf: Page, s: Shape, id: PageID, mid: nat, right: PageID)
    requires Layout(s) && id in s.nodes && s.nodes[id].level == 0 && LeafOk(leaf, s, s.nodes[id], MAX_CHILDREN)
    requires right !in s.nodes
    requires 1 <= mid < |leaf.keys|
    ensures var s' := SplitNode(s, id, leaf.keys[mid], right);
      LeafOk(LeafHigh(leaf, mid, right), s', s'.nodes[right], MAX_CHILDREN - 1)
  {
    var s' := SplitNode(s, id, leaf.keys[mid], right);
    assert leaf.keys[mid..] == leaf.keys[mid..|leaf.keys|] && leaf.values[mid..] == leaf.values[mid..|leaf.keys|];
    LeafSlice(leaf, LeafHigh(leaf, mid, right), s, s.nodes[id], s', s'.nodes[right], mid, |leaf.keys|);
  }

  lemma LeafSlice(leaf: Page, part: Page, s: Shape, n: Info, s': Shape, n': Info, a: nat, b: nat)
    requires LeafOk(leaf, s, n, MAX_CHILDREN)
    requires a < b <= |leaf.keys| && b - a < MAX_CHILDREN && s'.contents == s.contents
    requires n' ==
      Info(0, if a == 0 then n.lo else Rank(leaf.keys[a]), if b == |leaf.keys| then n.hi else Rank(leaf.keys[b]))
    requires part.isLeaf && part.numKeys == b - a && part.children == []
    requires part.keys == leaf.keys[a..b] && part.values == leaf.values[a..b]
    requires ChainOk(part.nextLeaf, s', n')
    ensures LeafOk(part, s', n', MAX_CHILDREN - 1)
  {
    hide Rank, Sorted, Covers, ChainOk;
    SortedSlice(leaf.keys, a, b);
    SliceCovered(leaf.keys, n, a, b, n', part.keys);
    assert forall j :: 0 <= j < |part.keys| ==>
        part.keys[j] == leaf.keys[a + j] && part.values[j] == leaf.values[a + j];
    forall k | k in s'.contents && Covers(n', k)
      ensures k in part.keys
    {
      StillListed(leaf, part, s, n, n', a, b, k);
    }
  }

  lemma SliceCovered(keys: seq<Bytes>, n: Info, a: nat, b: nat, n': Info, part: seq<Bytes>)
    requires Sorted(keys) && forall i :: 0 <= i < |keys| ==> Covers(n, keys[i])
    requires a < b <= |keys| && part == keys[a..b]
    requires n' == Info(0, if a == 0 then n.lo else Rank(keys[a]), if b == |keys| then n.hi else Rank(keys[b]))
    ensures n.lo <= n'.lo < n'.hi <= n.hi
    ensures forall j :: 0 <= j < |part| ==> Covers(n', part[j])
  {
    forall j | 0 <= j < |part|
      ensures Covers(n', part[j])
    {
      assert part[j] == keys[a + j];
      StrictlyBelow(keys, a, a + j);
      if b < |keys| {
        StrictlyBelow(keys, a + j, b);
      }
    }
    assert Covers(n', part[0]);
  }

  lemma StillListed(leaf: Page, part: Page, s: Shape, n: Info, n': Info, a: nat, b: nat, k: Bytes)
    requires LeafOk(leaf, s, n, MAX_CHILDREN) && a < b <= |leaf.keys|
    requires n' ==
      Info(0, if a == 0 then n.lo else Rank(leaf.keys[a]), if b == |leaf.keys| then n.hi else Rank(leaf.keys[b]))
    requires n.lo <= n'.lo && n'.hi <= n.hi
    requires part.keys == leaf.keys[a..b]
    requires k in s.contents && Covers(n', k)
    ensures k in part.keys
  {
    hide Rank, Sorted, ChainOk;
    var j :| 0 <= j < |leaf.keys| && leaf.keys[j] == k;
    StrictlyBelow(leaf.keys, j, a);
    if b < |leaf.keys| {
      StrictlyBelow(leaf.keys, j, b);
    }
    assert part.keys[j - a] == k;
  }

  /** Both halves of a split internal page are in order; the middle key moves up. */
  lemma InternalHalves(pg: Page, s: Shape, id: PageID, mid: nat, right: PageID)
    requires Layout(s) && id in s.nodes && InternalOk(pg, s, s.nodes[id], MAX_CHILDREN)
    requires right !in s.nodes
    requires 1 <= mid < |pg.keys| - 1
    ensures var sep := pg.keys[mid]; var s' := SplitNode(s, id, sep, right);
      && s.nodes[id].lo < Rank(sep) < s.nodes[id].hi
      && InternalOk(InternalLow(pg, mid), s', s'.nodes[id], MAX_CHILDREN - 1)
      && InternalOk(InternalHigh(pg, mid, right), s', s'.nodes[right], MAX_CHILDREN - 1)
  {
    var s' := SplitNode(s, id, pg.keys[mid], right);
    SortedSlice(pg.keys, 0, mid);
    SortedSlice(pg.keys, mid + 1, |pg.keys|);
    assert pg.keys[mid + 1..|pg.keys|] == pg.keys[mid + 1..];
    forall j | 0 <= j < |pg.children|
      ensures pg.children[j] in s'.nodes && s'.nodes[pg.children[j]] == ChildInfo(pg.keys, s.nodes[id], j)
    {
      assert s.nodes[pg.children[j]].level != s.nodes[id].level;
    }
    InternalSlice(pg, InternalLow(pg, mid), s.nodes[id], s', s'.nodes[id], 0, mid);
    InternalSlice(pg, InternalHigh(pg, mid, right), s.nodes[id], s', s'.nodes[right], mid + 1, |pg.keys|);
  }

  lemma InternalSlice(pg: Page, part: Page, n: Info, s': Shape, n': Info, a: nat, b: nat)
    requires 0 < n.level && a < b <= |pg.keys| && b - a < MAX_CHILDREN
    requires |pg.children| == |pg.keys| + 1
    requires forall i, j :: 0 <= i < j < |pg.keys| ==> Rank(pg.keys[i]) < Rank(pg.keys[j])
    requires forall i :: 0 <= i < |pg.keys| ==> n.lo < Rank(pg.keys[i]) < n.hi
    requires forall j :: 0 <= j < |pg.children| ==>
      pg.children[j] in s'.nodes && s'.nodes[pg.children[j]] == ChildInfo(pg.keys, n, j)
    requires n' ==
      Info(n.level, if a == 0 then n.lo else Rank(pg.keys[a - 1]), if b == |pg.keys| then n.hi else Rank(pg.keys[b]))
    requires !part.isLeaf && part.numKeys == b - a && part.values == [] && part.nextLeaf == 0
    requires part.keys == pg.keys[a..b] && part.children == pg.children[a..b + 1]
    ensures InternalOk(part, s', n', MAX_CHILDREN - 1)
  {
    assert forall i :: 0 <= i < |part.keys| ==> part.keys[i] == pg.keys[a + i];
    forall j | 0 <= j < |part.children|
      ensures part.children[j] in s'.nodes && s'.nodes[part.children[j]] == ChildInfo(part.keys, n', j)
    {
      assert part.children[j] == pg.children[a + j];
      assert s'.nodes[pg.children[a + j]] == ChildInfo(pg.keys, n, a + j);
    }
  }

  lemma SplitPends(pages: PageMap, s: Shape, root: PageID, path: seq<PathEntry>,
                   id: PageID, low: Page, high: Page, sep: Bytes, right: PageID)
    requires TreeOk(pages, s, root, {id})
    requires path != [] && PathOk(pages, s, root, path, id)
    requires right !in s.nodes
    requires s.nodes[id].lo < Rank(sep) < s.nodes[id].hi
    requires low.id == id && high.id == right
    requires var s' := SplitNode(s, id, sep, right);
      PageOk(low, s', s'.nodes[id], MAX_CHILDREN - 1) && PageOk(high, s', s'.nodes[right], MAX_CHILDREN - 1)
    ensures Pending(pages[id := low][right := high], SplitNode(s, id, sep, right), root, path, id, sep, right)
  {
    hide PageOk, InternalOk, Layout, Covers, PathOk, Rank;
    PathTop(pages, s, root, path, id);
    var pages' := pages[id := low][right := high];
    var s' := SplitNode(s, id, sep, right);
    var e := path[|path| - 1];
    SplitKeepsLayout(s, id, sep, right);
    assert e.pageID != id && e.pageID != right && Load(pages', e.pageID) == Load(pages, e.pageID);
    SplitParentWaits(pages, s, e, id, sep, right);
    forall p | p in s'.nodes && p != e.pageID
      ensures PageOk(Load(pages', p), s', s'.nodes[p], MAX_CHILDREN - 1)
    {
      if p != id && p != right {
        SplitElsewhere(Load(pages, e.pageID), e.pageID, Load(pages, p), p, s, id, sep, right);
      }
    }
    SplitKeepsPath(pages, s, root, path, id, low, high, sep, right);
  }

  lemma PathTop(pages: PageMap, s: Shape, root: PageID, path: seq<PathEntry>, id: PageID)
    requires path != [] && PathOk(pages, s, root, path, id)
    ensures var e := path[|path| - 1];
      && e.pageID in s.nodes && id in s.nodes && s.nodes[e.pageID].level == s.nodes[id].level + 1
      && e.index < |Load(pages, e.pageID).children| && Load(pages, e.pageID).children[e.index] == id
  {
    var j := |path| - 1;
    assert StepOk(pages, s, path[j], Below(path, j, id), s.nodes[id].level + |path| - j);
  }

  lemma SplitKeepsPath(pages: PageMap, s: Shape, root: PageID, path: seq<PathEntry>,
                       id: PageID, low: Page, high: Page, sep: Bytes, right: PageID)
    requires PathOk(pages, s, root, path, id) && right !in s.nodes
    ensures PathOk(pages[id := low][right := high], SplitNode(s, id, sep, right), root, path, id)
  {
    var pages' := pages[id := low][right := high];
    forall j | 0 <= j < |path|
      ensures Load(pages', path[j].pageID) == Load(pages, path[j].pageID)
    {
    }
  }

  lemma SplitParentWaits(pages: PageMap, s: Shape, e: PathEntry, id: PageID, sep: Bytes, right: PageID)
    requires Layout(s) && e.pageID in s.nodes && id in s.nodes && e.pageID != id && right !in s.nodes
    requires PageOk(Load(pages, e.pageID), s, s.nodes[e.pageID], MAX_CHILDREN - 1)
    requires e.index < |Load(pages, e.pageID).children| && Load(pages, e.pageID).children[e.index] == id
    requires s.nodes[id].lo < Rank(sep) < s.nodes[id].hi
    ensures ParentWaits(pages, SplitNode(s, id, sep, right), e, sep, right)
  {
    var parent := Load(pages, e.pageID);
    WithChildInserts(parent, e.index, sep, right);
    ParentTakes(parent, s, s.nodes[e.pageID], e.index, sep, right, WithChild(parent, e.index, sep, right));
  }

  lemma SplitElsewhere(parent: Page, parentID: PageID, pg: Page, p: PageID, s: Shape, id: PageID, sep: Bytes,
                       right: PageID)
    requires Layout(s) && parentID in s.nodes && p in s.nodes && id in s.nodes && right !in s.nodes
    requires p != parentID && p != id && id in parent.children
    requires PageOk(parent, s, s.nodes[parentID], MAX_CHILDREN - 1)
    requires PageOk(pg, s, s.nodes[p], MAX_CHILDREN - 1)
    ensures PageOk(pg, SplitNode(s, id, sep, right), s.nodes[p], MAX_CHILDREN - 1)
  {
    if id in pg.children {
      OneParent(p, pg, parentID, parent, s, MAX_CHILDREN - 1, id);
    }
    PageOkElsewhere(pg, s, SplitNode(s, id, sep, right), s.nodes[p], MAX_CHILDREN - 1);
  }

  /* ---- step 3: the parent is told, and may itself be too full ---- */

  lemma ParentTold(pages: PageMap, s: Shape, root: PageID, path: seq<PathEntry>, left: PageID, sep: Bytes,
                   right: PageID)
    requires path != [] && Pending(pages, s, root, path, left, sep, right)
    ensures var e := path[|path| - 1];
      e.pageID in s.nodes && ParentWaits(pages, s, e, sep, right)
    ensures var e := path[|path| - 1]; var parent := WithChild(Load(pages, e.pageID), e.index, sep, right);
      && parent.id == e.pageID
      && TreeOk(pages[e.pageID := parent], s, root, if |parent.keys| < MAX_CHILDREN then {} else {e.pageID})
      && PathOk(pages[e.pageID := parent], s, root, path[..|path| - 1], e.pageID)
      && 0 < s.nodes[e.pageID].level && |parent.keys| <= MAX_CHILDREN
  {
    hide LeafOk, InternalOk, Layout;
    var e := path[|path| - 1];
    var parent := WithChild(Load(pages, e.pageID), e.index, sep, right);
    ParentToldPath(pages, s, root, path, left, parent);
    assert 0 < s.nodes[e.pageID].level && |parent.keys| <= MAX_CHILDREN && (|parent.keys| < MAX_CHILDREN ==>
        PageOk(parent, s, s.nodes[e.pageID], MAX_CHILDREN - 1)) by {
      ParentCap(parent, s, s.nodes[e.pageID]);
    }
  }

  lemma ParentCap(pg: Page, s: Shape, n: Info)
    requires InternalOk(pg, s, n, MAX_CHILDREN)
    ensures 0 < n.level && |pg.keys| <= MAX_CHILDREN
    ensures |pg.keys| < MAX_CHILDREN ==> InternalOk(pg, s, n, MAX_CHILDREN - 1)
  {
  }

  lemma ParentToldPath(pages: PageMap, s: Shape, root: PageID, path: seq<PathEntry>, left: PageID, parent: Page)
    requires path != [] && PathOk(pages, s, root, path, left) && parent.id == path[|path| - 1].pageID
    ensures PathOk(pages[parent.id := parent], s, root, path[..|path| - 1], parent.id)
  {
    var up := path[..|path| - 1];
    var last := path[|path| - 1];
    assert StepOk(pages, s, last, left, s.nodes[left].level + 1);
    forall j | 0 <= j < |up|
      ensures StepOk(pages[parent.id := parent], s, up[j], Below(up, j, parent.id), s.nodes[parent.id].level + |up| - j)
    {
      assert StepOk(pages, s, path[j], Below(path, j, left), s.nodes[left].level + |path| - j);
    }
  }

  /* ---- step 4: the root itself splits, and keeps its page ID ---- */

  ghost function RaiseRoot(s: Shape, root: PageID, newLeft: PageID): Shape
    requires root in s.nodes
  {
    s.(nodes := s.nodes[newLeft := s.nodes[root]][root := Info(s.nodes[root].level + 1, 0.0, 1.0)])
  }

  /** The left half moves to a fresh page and the root page becomes their parent. */
  lemma RootRaised(pages: PageMap, s: Shape, root: PageID, sep: Bytes, right: PageID, newLeft: PageID)
    requires Pending(pages, s, root, [], root, sep, right)
    requires 0 < s.nodes[root].level
    requires newLeft !in s.nodes
    ensures TreeOk(pages[newLeft := Load(pages, root).(id := newLeft)][root := NewRoot(root, sep, newLeft, right)],
                   RaiseRoot(s, root, newLeft), root, {})
  {
    hide LeafOk, InternalOk, Rank;
    var low := Load(pages, root).(id := newLeft);
    var pages' := pages[newLeft := low][root := NewRoot(root, sep, newLeft, right)];
    var s' := RaiseRoot(s, root, newLeft);
    RaisedLayout(s, root, newLeft);
    RootAbove(s', root, sep, newLeft, right);
    forall p | p in s'.nodes
      ensures PageOk(Load(pages', p), s', s'.nodes[p], MAX_CHILDREN - 1)
    {
      if p == newLeft {
        RaisedElsewhere(Load(pages, root), low, s, s', root, newLeft, s.nodes[root]);
      } else if p != root {
        RaisedElsewhere(Load(pages, p), Load(pages, p), s, s', root, newLeft, s.nodes[p]);
      }
    }
  }

  lemma RaisedLayout(s: Shape, root: PageID, newLeft: PageID)
    requires Layout(s) && root in s.nodes && newLeft !in s.nodes
    requires forall p :: p in s.nodes ==> s.nodes[p].level <= s.nodes[root].level
    ensures Layout(RaiseRoot(s, root, newLeft)) && RootOk(RaiseRoot(s, root, newLeft), root)
  {
  }

  lemma RootAbove(s: Shape, root: PageID, sep: Bytes, left: PageID, right: PageID)
    requires root in s.nodes && 0 < s.nodes[root].level && s.nodes[root].lo == 0.0 && s.nodes[root].hi == 1.0
    requires left in s.nodes && s.nodes[left] == Info(s.nodes[root].level - 1, 0.0, Rank(sep))
    requires right in s.nodes && s.nodes[right] == Info(s.nodes[root].level - 1, Rank(sep), 1.0)
    requires 0.0 < Rank(sep) < 1.0
    ensures PageOk(NewRoot(root, sep, left, right), s, s.nodes[root], MAX_CHILDREN - 1)
  {
  }

  lemma RaisedElsewhere(pg: Page, pg': Page, s: Shape, s': Shape, root: PageID, newLeft: PageID, n: Info)
    requires root in s.nodes && newLeft !in s.nodes && s' == RaiseRoot(s, root, newLeft)
    requires 0 < s.nodes[root].level && n.level <= s.nodes[root].level
    requires PageOk(pg, s, n, MAX_CHILDREN - 1) && pg' == pg.(id := pg'.id)
    ensures PageOk(pg', s', n, MAX_CHILDREN - 1)
  {
    PageOkElsewhere(pg, s, s', n, MAX_CHILDREN - 1);
  }

  /** Splitting a root leaf: the only page of the tree becomes three. */
  lemma RootLeafSplits(pages: PageMap, s: Shape, root: PageID, leaf: Page, mid: nat, right: PageID, newLeft: PageID)
    requires TreeOk(pages, s, root, {root}) && s.nodes[root].level == 0 && leaf == Load(pages, root)
    requires 1 <= mid < |leaf.keys|
    requires right !in s.nodes && newLeft !in s.nodes && right != newLeft && right != 0
    ensures forall p :: p in s.nodes ==> p == root
    ensures var sep := leaf.keys[mid];
      TreeOk(pages[newLeft := LeafLow(leaf, newLeft, mid, right)][right := LeafHigh(leaf, mid, right)]
                  [root := NewRoot(root, sep, newLeft, right)],
             RaiseRoot(SplitNode(s, root, sep, right), root, newLeft), root, {})
  {
    hide LeafOk, InternalOk, Layout, Rank;
    LoneLeaf(pages, s, root, leaf);
    var sep := leaf.keys[mid];
    var low, high := LeafLow(leaf, newLeft, mid, right), LeafHigh(leaf, mid, right);
    var s1 := SplitNode(s, root, sep, right);
    var s' := RaiseRoot(s1, root, newLeft);
    LeafHalves(leaf, s, root, mid, right);
    SplitKeepsLayout(s, root, sep, right);
    RaisedLayout(s1, root, newLeft);
    RootAbove(s', root, sep, newLeft, right);
    RaisedLeaf(LeafLow(leaf, root, mid, right), low, s1, s', s'.nodes[newLeft]);
    RaisedLeaf(high, high, s1, s', s'.nodes[right]);
  }

  /** A root that is a leaf is the whole tree. */
  lemma LoneLeaf(pages: PageMap, s: Shape, root: PageID, leaf: Page)
    requires TreeOk(pages, s, root, {root}) && s.nodes[root].level == 0 && leaf == Load(pages, root)
    ensures |leaf.values| == |leaf.keys| && leaf.nextLeaf == 0
    ensures s.nodes == map[root := Info(0, 0.0, 1.0)] && LeafOk(leaf, s, s.nodes[root], MAX_CHILDREN)
  {
    hide LeafOk, InternalOk;
    OnlyLeaf(leaf, s, s.nodes[root]);
    forall p | p in s.nodes
      ensures p == root
    {
      assert s.nodes[p].level == 0;
    }
    assert s.nodes.Keys == {root};
  }

  lemma OnlyLeaf(leaf: Page, s: Shape, n: Info)
    requires LeafOk(leaf, s, n, MAX_CHILDREN) && n.hi == 1.0
    ensures |leaf.values| == |leaf.keys| && leaf.nextLeaf == 0
  {
  }

  lemma RaisedLeaf(pg: Page, pg': Page, s: Shape, s': Shape, n: Info)
    requires n.level == 0 && LeafOk(pg, s, n, MAX_CHILDREN - 1) && pg' == pg.(id := pg'.id)
    requires s'.contents == s.contents
    requires ChainOk(pg.nextLeaf, s', n)
    ensures LeafOk(pg', s', n, MAX_CHILDREN - 1)
  {
  }

  /** An internal page that splits leaves its parent waiting, or is the root. */
  lemma InternalSplitPends(pages: PageMap, s: Shape, root: PageID, path: seq<PathEntry>,
                           id: PageID, low: Page, high: Page, sep: Bytes, right: PageID)
    requires TreeOk(pages, s, root, {id}) && PathOk(pages, s, root, path, id)
    requires right !in s.nodes && 0 < s.nodes[id].level
    requires s.nodes[id].lo < Rank(sep) < s.nodes[id].hi
    requires low.id == id && high.id == right
    requires var s' := SplitNode(s, id, sep, right);
      PageOk(low, s', s'.nodes[id], MAX_CHILDREN - 1) && PageOk(high, s', s'.nodes[right], MAX_CHILDREN - 1)
    ensures Pending(pages[id := low][right := high], SplitNode(s, id, sep, right), root, path, id, sep, right)
  {
    hide LeafOk, InternalOk, Rank;
    if path != [] {
      SplitPends(pages, s, root, path, id, low, high, sep, right);
    } else {
      var pages' := pages[id := low][right := high];
      var s' := SplitNode(s, id, sep, right);
      SplitKeepsLayout(s, id, sep, right);
      forall p | p in s'.nodes
        ensures PageOk(Load(pages', p), s', s'.nodes[p], MAX_CHILDREN - 1)
      {
        if p != id && p != right {
          BelowTop(Load(pages, p), s, id, s.nodes[p], sep, right);
        }
      }
    }
  }

  lemma BelowTop(pg: Page, s: Shape, id: PageID, n: Info, sep: Bytes, right: PageID)
    requires id in s.nodes && right !in s.nodes && n.level <= s.nodes[id].level
    requires PageOk(pg, s, n, MAX_CHILDREN - 1)
    ensures PageOk(pg, SplitNode(s, id, sep, right), n, MAX_CHILDREN - 1)
  {
    if id in pg.children {
      ChildInside(pg, s, n, MAX_CHILDREN - 1, id);
    }
    PageOkElsewhere(pg, s, SplitNode(s, id, sep, right), n, MAX_CHILDREN - 1);
  }

  /* ---- the steps as the operations use them ---- */

  lemma LeafShape(pages: PageMap, s: Shape, root: PageID, big: set<PageID>, leaf: Page)
    requires TreeOk(pages, s, root, big) && leaf.id in s.nodes && leaf == Load(pages, leaf.id)
    requires s.nodes[leaf.id].level == 0
    ensures leaf.isLeaf && |leaf.values| == |leaf.keys| == leaf.numKeys <= MAX_CHILDREN && leaf.children == []
    ensures Sorted(leaf.keys)
    ensures leaf.id !in big ==> |leaf.keys| < MAX_CHILDREN
  {
  }

  lemma InternalShape(pages: PageMap, s: Shape, root: PageID, big: set<PageID>, pg: Page)
    requires TreeOk(pages, s, root, big) && pg.id in s.nodes && pg == Load(pages, pg.id)
    requires 0 < s.nodes[pg.id].level
    ensures !pg.isLeaf && |pg.children| == |pg.keys| + 1 && Sorted(pg.keys)
  {
  }

  lemma SplitLeafPends(pages: PageMap, s: Shape, root: PageID, path: seq<PathEntry>, leaf: Page, right: PageID)
    requires TreeOk(pages, s, root, {leaf.id}) && PathOk(pages, s, root, path, leaf.id) && path != []
    requires leaf == Load(pages, leaf.id) && s.nodes[leaf.id].level == 0
    requires |leaf.keys| == |leaf.values| == MAX_CHILDREN
    requires right !in s.nodes && right != 0
    ensures Pending(pages[leaf.id := LeafLow(leaf, leaf.id, 2, right)][right := LeafHigh(leaf, 2, right)],
                    SplitNode(s, leaf.id, leaf.keys[2], right), root, path, leaf.id, leaf.keys[2], right)
  {
    hide LeafOk, InternalOk, Layout;
    LeafHalves(leaf, s, leaf.id, 2, right);
    SplitPends(pages, s, root, path, leaf.id, LeafLow(leaf, leaf.id, 2, right), LeafHigh(leaf, 2, right), leaf.keys[2],
               right);
  }

  lemma SplitInternalPends(pages: PageMap, s: Shape, root: PageID, path: seq<PathEntry>, n: Page, right: PageID)
    requires TreeOk(pages, s, root, {n.id}) && PathOk(pages, s, root, path, n.id)
    requires n == Load(pages, n.id) && 0 < s.nodes[n.id].level
    requires |n.keys| == MAX_CHILDREN && |n.children| == MAX_CHILDREN + 1
    requires right !in s.nodes
    ensures Pending(pages[n.id := InternalLow(n, 2)][right := InternalHigh(n, 2, right)],
                    SplitNode(s, n.id, n.keys[2], right), root, path, n.id, n.keys[2], right)
  {
    hide LeafOk, InternalOk, Layout;
    InternalHalves(n, s, n.id, 2, right);
    InternalSplitPends(pages, s, root, path, n.id, InternalLow(n, 2), InternalHigh(n, 2, right), n.keys[2], right);
  }

  /* ---- what an insertion leaves alone ---- */

  /** Pages below `from` that are not among ids are as they were. */
  ghost predicate OnlyWithin(pages: PageMap, pages': PageMap, ids: set<PageID>, from: PageID) {
    forall id :: id < from && id !in ids ==>
      (id in pages <==> id in pages') && (id in pages && id in pages' ==> pages[id] == pages'[id])
  }

  /** Only the tree's own pages and fresh ones have changed, and the tree has
      only gained fresh pages. */
  ghost predicate Grown(pages: PageMap, s: Shape, next: PageID, pages': PageMap, s': Shape, next': PageID) {
    && next <= next'
    && OnlyWithin(pages, pages', s.nodes.Keys, next)
    && s.nodes.Keys <= s'.nodes.Keys
    && (forall p :: p in s'.nodes && p !in s.nodes ==> next <= p < next')
  }

  lemma GrownPut(pages: PageMap, s: Shape, next: PageID, pages': PageMap, s': Shape, next': PageID, id: PageID,
                 pg: Page)
    requires Grown(pages, s, next, pages', s', next')
    requires id in s'.nodes || next <= id
    ensures Grown(pages, s, next, pages'[id := pg], s', next')
  {
  }

  lemma GrownTrans(pages: PageMap, s: Shape, next: PageID, pages': PageMap, s': Shape, next': PageID,
                   pages'': PageMap, s'': Shape, next'': PageID)
    requires Grown(pages, s, next, pages', s', next') && Grown(pages', s', next', pages'', s'', next'')
    ensures Grown(pages, s, next, pages'', s'', next'')
  {
  }

  lemma GrownNodes(pages: PageMap, s: Shape, next: PageID, pages': PageMap, s': Shape, next': PageID, s'': Shape)
    requires Grown(pages, s, next, pages', s', next')
    requires s'.nodes.Keys <= s''.nodes.Keys
    requires forall p :: p in s''.nodes && p !in s'.nodes ==> next <= p < next'
    ensures Grown(pages, s, next, pages', s'', next')
  {
  }

  /** Without deletes every leaf but a lone root holds at least two keys. */
  ghost predicate Dense(pages: PageMap, s: Shape, root: PageID) {
    forall p :: p in s.nodes && s.nodes[p].level == 0 && p != root ==> 2 <= |Load(pages, p).keys|
  }

  lemma DenseSplit(pages: PageMap, s: Shape, root: PageID, id: PageID, low: Page, sep: Bytes, right: PageID, high: Page)
    requires Dense(pages, s, root) && id in s.nodes && id != right
    requires s.nodes[id].level == 0 ==> 2 <= |low.keys| && 2 <= |high.keys|
    ensures Dense(pages[id := low][right := high], SplitNode(s, id, sep, right), root)
  {
  }

  lemma DensePut(pages: PageMap, s: Shape, root: PageID, id: PageID, pg: Page)
    requires Dense(pages, s, root)
    requires id in s.nodes && s.nodes[id].level == 0 ==> |Load(pages, id).keys| <= |pg.keys|
    ensures Dense(pages[id := pg], s, root)
  {
  }

  lemma DenseRaise(pages: PageMap, s: Shape, root: PageID, newLeft: PageID, low: Page, pg: Page)
    requires Dense(pages, s, root) && root in s.nodes
    requires s.nodes[root].level == 0 ==> 2 <= |low.keys|
    ensures Dense(pages[newLeft := low][root := pg], RaiseRoot(s, root, newLeft), root)
  {
  }

  lemma GrownSame(pages: PageMap, s: Shape, next: PageID)
    ensures Grown(pages, s, next, pages, s, next) && Grown(pages, s, next, pages, s, next + 1)
  {
  }

  lemma GrownMore(pages: PageMap, s: Shape, next: PageID, pages': PageMap, s': Shape, next': PageID)
    requires Grown(pages, s, next, pages', s', next')
    ensures Grown(pages, s, next, pages', s', next' + 1)
  {
  }

  lemma DenseNodes(pages: PageMap, s: Shape, s': Shape, root: PageID)
    requires Dense(pages, s, root) && s'.nodes == s.nodes
    ensures Dense(pages, s', root)
  {
  }

  lemma LoneRootSplit(pages: PageMap, s: Shape, root: PageID, left: Page, right: Page, top: Page, sep: Bytes)
    requires forall p :: p in s.nodes ==> p == root
    requires root in s.nodes && s.nodes[root].level == 0 && root != right.id && root != left.id && left.id != right.id
    requires 2 <= |left.keys| && 2 <= |right.keys|
    ensures Dense(pages[left.id := left][right.id := right][root := top],
                  RaiseRoot(SplitNode(s, root, sep, right.id), root, left.id), root)
  {
  }

  /** The path to a leaf does not run through the leaf. */
  lemma PathAbove(pages: PageMap, s: Shape, root: PageID, path: seq<PathEntry>, leaf: Page, s': Shape)
    requires PathOk(pages, s, root, path, leaf.id) && s'.nodes == s.nodes
    ensures PathOk(pages[leaf.id := leaf], s', root, path, leaf.id)
  {
    forall j | 0 <= j < |path|
      ensures StepOk(pages[leaf.id := leaf], s', path[j], Below(path, j, leaf.id), s'.nodes[leaf.id].level + |path| - j)
    {
      assert StepOk(pages, s, path[j], Below(path, j, leaf.id), s.nodes[leaf.id].level + |path| - j);
    }
  }

  /** A leaf that covers a key takes its entry, in place or beside the others. */
  lemma LeafTakes(pages: PageMap, s: Shape, root: PageID, leaf: Page, i: nat, key: Bytes, value: Bytes, leaf': Page)
    requires TreeOk(pages, s, root, {}) && leaf.id in s.nodes && leaf == Load(pages, leaf.id)
    requires s.nodes[leaf.id].level == 0 && Covers(s.nodes[leaf.id], key)
    requires i <= |leaf.keys| == |leaf.values|
    requires forall j :: 0 <= j < i ==> Rank(leaf.keys[j]) < Rank(key)
    requires forall j :: i <= j < |leaf.keys| ==> Rank(key) <= Rank(leaf.keys[j])
    requires leaf' == if i < |leaf.keys| && leaf.keys[i] == key then WithValue(leaf, i, value)
      else WithEntry(leaf, i, key, value)
    ensures |leaf.keys| <= |leaf'.keys| <= MAX_CHILDREN
    ensures TreeOk(pages[leaf.id := leaf'], s.(contents := s.contents[key := value]), root,
                   if |leaf'.keys| < MAX_CHILDREN then {} else {leaf.id})
  {
    hide LeafOk, InternalOk, Layout, Sorted;
    var s' := s.(contents := s.contents[key := value]);
    assert LeafOk(leaf, s, s.nodes[leaf.id], MAX_CHILDREN - 1);
    LeafTakesEntry(leaf, s, s.nodes[leaf.id], i, key, value, leaf');
    LeafRewritten(pages, s, root, leaf', s', if |leaf'.keys| < MAX_CHILDREN then {} else {leaf.id});
  }

  lemma LeafTakesEntry(leaf: Page, s: Shape, n: Info, i: nat, key: Bytes, value: Bytes, leaf': Page)
    requires LeafOk(leaf, s, n, MAX_CHILDREN - 1) && Covers(n, key)
    requires i <= |leaf.keys| == |leaf.values|
    requires forall j :: 0 <= j < i ==> Rank(leaf.keys[j]) < Rank(key)
    requires forall j :: i <= j < |leaf.keys| ==> Rank(key) <= Rank(leaf.keys[j])
    requires leaf' == if i < |leaf.keys| && leaf.keys[i] == key then WithValue(leaf, i, value)
      else WithEntry(leaf, i, key, value)
    ensures |leaf.keys| <= |leaf'.keys| <= MAX_CHILDREN
    ensures LeafOk(leaf', s.(contents := s.contents[key := value]), n,
                   if |leaf'.keys| < MAX_CHILDREN then MAX_CHILDREN - 1 else MAX_CHILDREN)
  {
    hide LeafOk, Rank, Sorted, Covers, WithEntry;
    var s' := s.(contents := s.contents[key := value]);
    LeafFacts(leaf, s, n, MAX_CHILDREN - 1);
    if i < |leaf.keys| && leaf.keys[i] == key {
      ValueIntoLeaf(leaf, s, n, i, value, MAX_CHILDREN - 1);
    } else {
      AboveInsertion(leaf.keys, i, key);
      NewEntry(leaf, s, n, i, key, value);
    }
    LeafFacts(leaf', s', n, MAX_CHILDREN);
    LeafCap(leaf', s', n);
  }

  lemma NewEntry(leaf: Page, s: Shape, n: Info, i: nat, key: Bytes, value: Bytes)
    requires LeafOk(leaf, s, n, MAX_CHILDREN - 1) && Covers(n, key)
    requires i <= |leaf.keys| == |leaf.values|
    requires forall j :: 0 <= j < i ==> Rank(leaf.keys[j]) < Rank(key)
    requires forall j :: i <= j < |leaf.keys| ==> Rank(key) < Rank(leaf.keys[j])
    ensures LeafOk(WithEntry(leaf, i, key, value), s.(contents := s.contents[key := value]), n, MAX_CHILDREN)
    ensures |WithEntry(leaf, i, key, value).keys| == |leaf.keys| + 1
  {
    hide LeafOk, Rank, Covers;
    assert EntryInserted(leaf, i, key, value, WithEntry(leaf, i, key, value)) by {
      InsertAt(leaf.keys, i, key);
      InsertAt(leaf.values, i, value);
    }
    EntryIntoLeaf(leaf, s, n, i, key, value, WithEntry(leaf, i, key, value), MAX_CHILDREN - 1);
  }

  lemma LeafFacts(pg: Page, s: Shape, n: Info, cap: nat)
    ensures LeafOk(pg, s, n, cap) ==> Sorted(pg.keys) && |pg.keys| == |pg.values| <= cap
  {
  }

  lemma LeafCap(pg: Page, s: Shape, n: Info)
    requires LeafOk(pg, s, n, MAX_CHILDREN) || LeafOk(pg, s, n, MAX_CHILDREN - 1)
    ensures LeafOk(pg, s, n, MAX_CHILDREN) && (|pg.keys| < MAX_CHILDREN ==> LeafOk(pg, s, n, MAX_CHILDREN - 1))
  {
  }

  lemma AboveInsertion(keys: seq<Bytes>, i: nat, key: Bytes)
    requires Sorted(keys) && i <= |keys|
    requires forall j :: i <= j < |keys| ==> Rank(key) <= Rank(keys[j])
    requires i < |keys| ==> keys[i] != key
    ensures forall j :: i <= j < |keys| ==> Rank(key) < Rank(keys[j])
  {
    if i < |keys| {
      CompareIsRank(keys[i], key);
    }
  }
}

/** When the pages an insertion rewrites have room for it. */
module TreeRoom {
  import opened Bytes
  import opened Metadata
  import opened Pages
  import opened Seqs
  import opened TreeShape
  import opened TreeFacts

  /** The place of a key among sorted keys. */
  ghost function Place(keys: seq<Bytes>, key: Bytes): (i: nat)
    ensures i <= |keys|
  {
    if keys == [] || Rank(key) <= Rank(keys[0]) then 0 else 1 + Place(keys[1..], key)
  }

  lemma {:induction false} PlaceIs(keys: seq<Bytes>, key: Bytes, i: nat)
    requires i <= |keys|
    requires forall j :: 0 <= j < i ==> Rank(keys[j]) < Rank(key)
    requires forall j :: i <= j < |keys| ==> Rank(key) <= Rank(keys[j])
    ensures Place(keys, key) == i
  {
    hide Rank;
    if 0 < i {
      PlaceIs(keys[1..], key, i - 1);
    }
  }

  /** The leaf with an entry in its place, over an old value of the same key. */
  ghost function WithPair(leaf: Page, key: Bytes, value: Bytes): Page
    requires |leaf.keys| == |leaf.values|
  {
    var i := Place(leaf.keys, key);
    if i < |leaf.keys| && leaf.keys[i] == key then WithValue(leaf, i, value) else WithEntry(leaf, i, key, value)
  }

  /** Every page on the way up that is told of a split has room for its
      separator, as far up as the splits go; new root pages always have room. */
  ghost predicate ClimbFits(pages: PageMap, path: seq<PathEntry>, sep: Bytes, pageSize: nat)
    decreases |path|
  {
    if path == [] then true
    else
      var n := |path| - 1;
      var e, parent := path[n], Load(pages, path[n].pageID);
      if e.index <= |parent.keys| && e.index < |parent.children| then
        var told := WithChild(parent, e.index, sep, 0);
        Fits(told, pageSize) &&
        (MAX_CHILDREN <= |told.keys| ==> ClimbFits(pages, path[..n], told.keys[MAX_CHILDREN / 2], pageSize))
      else true
  }

  /** The covering leaf has room for the entry, and if it has to split, so have
      the pages above it for the separators. */
  ghost predicate HasRoom(pages: PageMap, s: Shape, root: PageID, key: Bytes, value: Bytes, pageSize: nat) {
    forall id, path :: LeadsTo(pages, s, root, path, id, key) ==>
                         TakesPair(pages, path, Load(pages, id), key, value, pageSize)
  }

  ghost predicate TakesPair(pages: PageMap, path: seq<PathEntry>, leaf: Page, key: Bytes, value: Bytes, pageSize: nat) {
    |leaf.keys| == |leaf.values| ==>
      var leaf' := WithPair(leaf, key, value);
      Fits(leaf', pageSize) &&
      (MAX_CHILDREN <= |leaf'.keys| ==> ClimbFits(pages, path, leaf'.keys[MAX_CHILDREN / 2], pageSize))
  }

  ghost predicate LeadsTo(pages: PageMap, s: Shape, root: PageID, path: seq<PathEntry>, id: PageID, key: Bytes) {
    PathOk(pages, s, root, path, id) && s.nodes[id].level == 0 && Covers(s.nodes[id], key)
  }

  /* ---- there is one way to a key ---- */

  lemma OneLeaf(pages: PageMap, s: Shape, root: PageID, a: PageID, b: PageID, key: Bytes)
    requires TreeOk(pages, s, root, {}) && a in s.nodes && b in s.nodes
    requires s.nodes[a].level == s.nodes[b].level && Covers(s.nodes[a], key) && Covers(s.nodes[b], key)
    ensures a == b
  {
    hide PageOk, Rank;
    assert a == b || Apart(s.nodes[a], s.nodes[b]);
  }

  lemma {:induction false} OnePath(pages: PageMap, s: Shape, root: PageID, p: seq<PathEntry>, q: seq<PathEntry>,
                                   id: PageID)
    requires TreeOk(pages, s, root, {}) && PathOk(pages, s, root, p, id) && PathOk(pages, s, root, q, id)
    ensures p == q
    decreases |p|
  {
    hide TreeOk, PathOk, StepOk;
    PathLength(pages, s, root, p, id);
    PathLength(pages, s, root, q, id);
    if p != [] {
      var n := |p| - 1;
      LastStep(pages, s, root, p, id);
      LastStep(pages, s, root, q, id);
      OneParentEach(pages, s, root, id);
      OneIndex(pages, s, root, p[n].pageID, p[n].index, q[n].index);
      OnePath(pages, s, root, p[..n], q[..n], p[n].pageID);
      assert p == p[..n] + [p[n]] && q == q[..n] + [q[n]];
    }
  }

  lemma PathLength(pages: PageMap, s: Shape, root: PageID, path: seq<PathEntry>, id: PageID)
    requires TreeOk(pages, s, root, {}) && PathOk(pages, s, root, path, id)
    ensures id in s.nodes && root in s.nodes && |path| == s.nodes[root].level - s.nodes[id].level
  {
    hide PageOk, Layout;
    if path != [] {
      assert StepOk(pages, s, path[0], Below(path, 0, id), s.nodes[id].level + |path|);
    }
  }

  lemma LastStep(pages: PageMap, s: Shape, root: PageID, path: seq<PathEntry>, id: PageID)
    requires path != [] && PathOk(pages, s, root, path, id)
    ensures var n := |path| - 1; var e := path[n];
      && e.pageID in s.nodes && e.index < |Load(pages, e.pageID).children|
      && Load(pages, e.pageID).children[e.index] == id && id in Load(pages, e.pageID).children
      && s.nodes[e.pageID].level == s.nodes[id].level + 1
      && PathOk(pages, s, root, path[..n], e.pageID)
  {
    var n := |path| - 1;
    var up, e := path[..n], path[n];
    assert StepOk(pages, s, path[n], Below(path, n, id), s.nodes[id].level + |path| - n);
    forall j | 0 <= j < n
      ensures StepOk(pages, s, up[j], Below(up, j, e.pageID), s.nodes[e.pageID].level + n - j)
    {
      assert StepOk(pages, s, path[j], Below(path, j, id), s.nodes[id].level + |path| - j);
    }
  }

  lemma OneIndex(pages: PageMap, s: Shape, root: PageID, p: PageID, i: nat, j: nat)
    requires TreeOk(pages, s, root, {}) && p in s.nodes
    requires i < |Load(pages, p).children| && j < |Load(pages, p).children|
    requires Load(pages, p).children[i] == Load(pages, p).children[j]
    ensures i == j
  {
    hide Layout, Rank, InternalOk;
    var pg, n := Load(pages, p), s.nodes[p];
    assert PageOk(pg, s, n, MAX_CHILDREN - 1);
    if i < j {
      ChildrenDiffer(pg, s, n, MAX_CHILDREN - 1, i, j);
    } else if j < i {
      ChildrenDiffer(pg, s, n, MAX_CHILDREN - 1, j, i);
    }
  }

  lemma OneWay(pages: PageMap, s: Shape, root: PageID, p: seq<PathEntry>, a: PageID, q: seq<PathEntry>, b: PageID,
               key: Bytes)
    requires TreeOk(pages, s, root, {}) && LeadsTo(pages, s, root, p, a, key) && LeadsTo(pages, s, root, q, b, key)
    ensures a == b && p == q
  {
    hide TreeOk;
    OneLeaf(pages, s, root, a, b, key);
    OnePath(pages, s, root, p, q, a);
  }

  /** So there is room exactly when the pages on that way have it. */
  lemma RoomOnTheWay(pages: PageMap, s: Shape, root: PageID, path: seq<PathEntry>, leaf: Page, key: Bytes,
                     value: Bytes, pageSize: nat)
    requires TreeOk(pages, s, root, {}) && LeadsTo(pages, s, root, path, leaf.id, key) && leaf == Load(pages, leaf.id)
    ensures HasRoom(pages, s, root, key, value, pageSize) <==> TakesPair(pages, path, leaf, key, value, pageSize)
  {
    hide TreeOk, TakesPair, LeadsTo;
    forall id, way | LeadsTo(pages, s, root, way, id, key)
      ensures id == leaf.id && way == path
    {
      OneWay(pages, s, root, way, id, path, leaf.id, key);
    }
  }

  /** Pages at the level of id and below do not count for the climb from there. */
  lemma {:induction false} ClimbSame(pages: PageMap, pages': PageMap, s: Shape, root: PageID, path: seq<PathEntry>,
                                     id: PageID,
                                     sep: Bytes, pageSize: nat)
    requires PathOk(pages, s, root, path, id)
    requires forall p :: p in s.nodes && s.nodes[id].level < s.nodes[p].level ==> Load(pages', p) == Load(pages, p)
    ensures ClimbFits(pages', path, sep, pageSize) <==> ClimbFits(pages, path, sep, pageSize)
    decreases |path|
  {
    hide PathOk, StepOk, Fits;
    if path != [] {
      var n := |path| - 1;
      LastStep(pages, s, root, path, id);
      var e, parent := path[n], Load(pages, path[n].pageID);
      if e.index <= |parent.keys| {
        var told := WithChild(parent, e.index, sep, 0);
        if MAX_CHILDREN <= |told.keys| {
          ClimbSame(pages, pages', s, root, path[..n], e.pageID, told.keys[MAX_CHILDREN / 2], pageSize);
        }
      }
    }
  }

  /* ---- halves and new roots fit ---- */

  lemma {:induction false} LengthOfParts(parts: seq<Bytes>, i: nat)
    requires i <= |parts|
    ensures TotalLength(parts[..i]) + TotalLength(parts[i..]) == TotalLength(parts)
    ensures i < |parts| ==> |parts[i]| + TotalLength(parts[i + 1..]) == TotalLength(parts[i..])
  {
    if i == 0 {
      assert parts[..0] == [] && parts[0..] == parts;
    } else {
      LengthOfParts(parts[1..], i - 1);
      assert parts[..i][1..] == parts[1..][..i - 1] && parts[1..][i - 1..] == parts[i..];
      if i < |parts| {
        assert parts[1..][i..] == parts[i + 1..];
      }
    }
  }

  lemma MoreRoom(id: PageID, id': PageID, pageSize: nat)
    ensures id' != ROOT_SCHEMA_PAGE ==> Room(id, pageSize) <= Room(id', pageSize)
  {
  }

  lemma LeafHalvesFit(leaf: Page, id: PageID, right: PageID, pageSize: nat)
    requires leaf.isLeaf && |leaf.keys| == |leaf.values| == MAX_CHILDREN && Fits(leaf, pageSize)
    requires (id == leaf.id || id != ROOT_SCHEMA_PAGE) && right != ROOT_SCHEMA_PAGE
    ensures Fits(LeafLow(leaf, id, 2, right), pageSize) && Fits(LeafHigh(leaf, 2, right), pageSize)
    ensures forall root, l, r :: Room(leaf.id, pageSize) <= Room(root, pageSize) ==>
      Fits(NewRoot(root, leaf.keys[2], l, r), pageSize)
  {
    LengthOfParts(leaf.keys, 2);
    LengthOfParts(leaf.values, 2);
    assert TotalLength([leaf.keys[2]]) == |leaf.keys[2]|;
  }

  lemma InternalHalvesFit(n: Page, right: PageID, pageSize: nat)
    requires !n.isLeaf && |n.keys| == MAX_CHILDREN == |n.children| - 1 && Fits(n, pageSize) && right != ROOT_SCHEMA_PAGE
    ensures Fits(InternalLow(n, 2), pageSize) && Fits(InternalHigh(n, 2, right), pageSize)
    ensures forall root, l, r :: Room(n.id, pageSize) <= Room(root, pageSize) ==>
      Fits(NewRoot(root, n.keys[2], l, r), pageSize)
  {
    LengthOfParts(n.keys, 2);
    LengthOfParts(n.keys, 3);
    assert TotalLength([n.keys[2]]) == |n.keys[2]|;
  }

  /** The new leaf does not lie on its own path. */
  lemma LeafNotAbove(pages: PageMap, s: Shape, root: PageID, path: seq<PathEntry>, leaf': Page, sep: Bytes,
                     pageSize: nat)
    requires PathOk(pages, s, root, path, leaf'.id)
    ensures ClimbFits(pages[leaf'.id := leaf'], path, sep, pageSize) <==> ClimbFits(pages, path, sep, pageSize)
  {
    hide ClimbFits, PathOk;
    ClimbSame(pages, pages[leaf'.id := leaf'], s, root, path, leaf'.id, sep, pageSize);
  }

  /** Nor do the halves of a page that splits. */
  lemma HalvesNotAbove(pages: PageMap, s: Shape, root: PageID, path: seq<PathEntry>, id: PageID, low: Page,
                       rightID: PageID, right: Page, sep: Bytes, pageSize: nat)
    requires PathOk(pages, s, root, path, id) && rightID !in s.nodes
    ensures var pages' := pages[id := low][rightID := right];
      ClimbFits(pages', path, sep, pageSize) <==> ClimbFits(pages, path, sep, pageSize)
  {
    hide ClimbFits, PathOk;
    ClimbSame(pages, pages[id := low][rightID := right], s, root, path, id, sep, pageSize);
  }

  lemma RootLeafFits(pages: PageMap, path: seq<PathEntry>, sep: Bytes, pageSize: nat)
    ensures path == [] ==> ClimbFits(pages, path, sep, pageSize)
  {
  }

  /** One step of the climb, with the parent as it is written. */
  lemma ToldClimbs(pages: PageMap, s: Shape, root: PageID, path: seq<PathEntry>, sep: Bytes, right: PageID,
                   pageSize: nat)
    requires path != [] && ParentWaits(pages, s, path[|path| - 1], sep, right)
    requires var e := path[|path| - 1];
      PathOk(pages[e.pageID := WithChild(Load(pages, e.pageID), e.index, sep, right)], s, root, path[..|path| - 1],
             e.pageID)
    ensures var e := path[|path| - 1]; var told := WithChild(Load(pages, e.pageID), e.index, sep, right);
      ClimbFits(pages, path, sep, pageSize) <==>
        Fits(told, pageSize) &&
        (MAX_CHILDREN <= |told.keys| ==>
           ClimbFits(pages[e.pageID := told], path[..|path| - 1], told.keys[MAX_CHILDREN / 2], pageSize))
  {
    hide PathOk, InternalOk;
    var e := path[|path| - 1];
    var told := WithChild(Load(pages, e.pageID), e.index, sep, right);
    if MAX_CHILDREN <= |told.keys| {
      ClimbSame(pages[e.pageID := told], pages, s, root, path[..|path| - 1], e.pageID, told.keys[MAX_CHILDREN / 2],
                pageSize);
    }
  }

  /** A root that moves to a page of its own still fits there. */
  lemma RaisedFits(pages: PageMap, next: PageID, pageSize: nat, left: PageID, root: PageID, sep: Bytes, right: PageID)
    requires 1 <= next && Fits(Load(pages, left), pageSize)
    requires Fits(NewRoot(root, sep, left, right), pageSize)
    ensures Fits(Load(pages, left).(id := next), pageSize) && Fits(NewRoot(root, sep, next, right), pageSize)
  {
  }

  /* ---- what a refusal halfway leaves ---- */

  /** A page has split and was written, but the parent refused the separator. */
  ghost predicate HalfSplit(pages: PageMap, s: Shape, root: PageID) {
    exists path, left, sep, right :: path != [] && Pending(pages, s, root, path, left, sep, right)
  }

  /** No page lists the right half of such a split: no search comes to its keys. */
  lemma RightHalfLost(pages: PageMap, s: Shape, root: PageID, path: seq<PathEntry>, left: PageID, sep: Bytes,
                      right: PageID)
    requires path != [] && Pending(pages, s, root, path, left, sep, right)
    ensures right in s.nodes && forall p :: p in s.nodes ==> right !in Load(pages, p).children
  {
    hide LeafOk, InternalOk, Layout, PathOk, Rank;
    var e := path[|path| - 1];
    var parent := Load(pages, e.pageID);
    var told := WithChild(parent, e.index, sep, right);
    ToldLists(parent, e.index, sep, right);
    ToldLevel(told, s, s.nodes[e.pageID]);
    forall p | p in s.nodes && right in Load(pages, p).children
      ensures false
    {
      if p == e.pageID {
        ListedTwice(parent, e.index, sep, right, s, s.nodes[p]);
      } else {
        ParentCapped(Load(pages, p), s, s.nodes[p]);
        OneParent(p, Load(pages, p), e.pageID, told, s, MAX_CHILDREN, right);
      }
    }
  }

  lemma ToldLists(parent: Page, i: nat, sep: Bytes, right: PageID)
    requires i <= |parent.keys| && i < |parent.children|
    ensures right in WithChild(parent, i, sep, right).children
  {
    assert WithChild(parent, i, sep, right).children[i + 1] == right;
  }

  lemma ToldLevel(pg: Page, s: Shape, n: Info)
    requires InternalOk(pg, s, n, MAX_CHILDREN)
    ensures PageOk(pg, s, n, MAX_CHILDREN)
  {
  }

  lemma ParentCapped(pg: Page, s: Shape, n: Info)
    requires PageOk(pg, s, n, MAX_CHILDREN - 1)
    ensures PageOk(pg, s, n, MAX_CHILDREN)
  {
  }

  lemma ListedTwice(parent: Page, i: nat, sep: Bytes, right: PageID, s: Shape, n: Info)
    requires Layout(s) && i <= |parent.keys| && i < |parent.children|
    requires InternalOk(WithChild(parent, i, sep, right), s, n, MAX_CHILDREN)
    ensures right !in parent.children
  {
    hide InternalOk, Layout;
    var told := WithChild(parent, i, sep, right);
    assert |told.children| == |parent.children| + 1;
    forall j | 0 <= j < |parent.children|
      ensures parent.children[j] != right
    {
      assert told.children[i + 1] == right;
      if j <= i {
        assert told.children[j] == parent.children[j];
        ChildrenDiffer(told, s, n, MAX_CHILDREN, j, i + 1);
      } else {
        assert told.children[j + 1] == parent.children[j];
        ChildrenDiffer(told, s, n, MAX_CHILDREN, i + 1, j + 1);
      }
    }
  }

  /* ---- pages of short keys and values always have room ---- */

  ghost predicate PageWithin(p: Page, k: nat, v: nat) {
    && (forall i :: 0 <= i < |p.keys| ==> |p.keys[i]| <= k)
    && (forall i :: 0 <= i < |p.values| ==> |p.values[i]| <= v)
  }

  /** No key is longer than k bytes and no value than v. */
  ghost predicate Within(pages: PageMap, k: nat, v: nat) {
    forall id :: id in pages ==> PageWithin(pages[id], k, v)
  }

  /** A leaf and an internal page hold one entry too many even beside the
      database header. */
  predicate Roomy(pageSize: nat, k: nat, v: nat) {
    && HEADER_SIZE + MAX_CHILDREN * (LEAF_SLOT_SIZE + k + v) <= pageSize - METADATA_LENGTH
    && HEADER_SIZE + (MAX_CHILDREN + 1) * INTERNAL_SLOT_SIZE + MAX_CHILDREN * k <= pageSize - METADATA_LENGTH
  }

  lemma RoomyInBytes(pageSize: nat, k: nat, v: nat)
    ensures Roomy(pageSize, k, v) <==> 64 + 4 * (k + v) <= pageSize - 100 && 92 + 4 * k <= pageSize - 100
  {
  }

  lemma {:induction false} TotalWithin(parts: seq<Bytes>, k: nat)
    requires forall i :: 0 <= i < |parts| ==> |parts[i]| <= k
    ensures TotalLength(parts) <= |parts| * k
  {
    if parts != [] {
      TotalWithin(parts[1..], k);
      assert |parts| * k == |parts[1..]| * k + k;
    }
  }

  lemma SomeWithin(parts: seq<Bytes>, k: nat)
    requires |parts| <= MAX_CHILDREN && forall i :: 0 <= i < |parts| ==> |parts[i]| <= k
    ensures TotalLength(parts) <= MAX_CHILDREN * k
  {
    TotalWithin(parts, k);
    assert |parts| * k <= MAX_CHILDREN * k;
  }

  lemma RoomyFits(p: Page, pageSize: nat, k: nat, v: nat)
    requires Roomy(pageSize, k, v) && PageWithin(p, k, v) && |p.keys| <= MAX_CHILDREN && |p.values| <= MAX_CHILDREN
    ensures Fits(p, pageSize)
  {
    SomeWithin(p.keys, k);
    SomeWithin(p.values, v);
  }

  lemma LoadWithin(pages: PageMap, id: PageID, k: nat, v: nat)
    requires Within(pages, k, v)
    ensures PageWithin(Load(pages, id), k, v)
  {
  }

  lemma PairWithin(leaf: Page, key: Bytes, value: Bytes, k: nat, v: nat)
    requires PageWithin(leaf, k, v) && |leaf.keys| == |leaf.values| && |key| <= k && |value| <= v
    ensures PageWithin(WithPair(leaf, key, value), k, v)
    ensures |WithPair(leaf, key, value).keys| == |WithPair(leaf, key, value).values| <= |leaf.keys| + 1
  {
    hide Place;
  }

  lemma ChildWithin(parent: Page, i: nat, sep: Bytes, right: PageID, k: nat, v: nat)
    requires PageWithin(parent, k, v) && i <= |parent.keys| && i < |parent.children| && |sep| <= k
    ensures PageWithin(WithChild(parent, i, sep, right), k, v)
  {
  }

  /** Where every key and value is short, every insertion finds room. */
  lemma WithinHasRoom(pages: PageMap, s: Shape, root: PageID, key: Bytes, value: Bytes, pageSize: nat, k: nat, v: nat)
    requires TreeOk(pages, s, root, {}) && Within(pages, k, v) && |key| <= k && |value| <= v && Roomy(pageSize, k, v)
    ensures HasRoom(pages, s, root, key, value, pageSize)
  {
    hide TreeOk, WithPair, Fits, Roomy, PageWithin, Within;
    forall id, path | LeadsTo(pages, s, root, path, id, key)
      ensures TakesPair(pages, path, Load(pages, id), key, value, pageSize)
    {
      var leaf := Load(pages, id);
      LeafShape(pages, s, root, {}, leaf);
      LoadWithin(pages, id, k, v);
      PairWithin(leaf, key, value, k, v);
      RoomyFits(WithPair(leaf, key, value), pageSize, k, v);
      if MAX_CHILDREN <= |WithPair(leaf, key, value).keys| {
        KeyWithin(WithPair(leaf, key, value), MAX_CHILDREN / 2, k, v);
        ClimbWithin(pages, s, root, path, id, WithPair(leaf, key, value).keys[MAX_CHILDREN / 2], pageSize, k, v);
      }
    }
  }

  lemma KeyWithin(p: Page, i: nat, k: nat, v: nat)
    requires PageWithin(p, k, v) && i < |p.keys|
    ensures |p.keys[i]| <= k
  {
  }

  lemma {:induction false} ClimbWithin(pages: PageMap, s: Shape, root: PageID, path: seq<PathEntry>, id: PageID,
                                       sep: Bytes,
                                       pageSize: nat, k: nat, v: nat)
    requires TreeOk(pages, s, root, {}) && PathOk(pages, s, root, path, id)
    requires Within(pages, k, v) && |sep| <= k && Roomy(pageSize, k, v)
    ensures ClimbFits(pages, path, sep, pageSize)
    decreases |path|
  {
    hide TreeOk, PathOk, StepOk, Fits, Roomy, PageWithin, Within;
    if path != [] {
      var n := |path| - 1;
      LastStep(pages, s, root, path, id);
      var e, parent := path[n], Load(pages, path[n].pageID);
      ParentSize(pages, s, root, e.pageID);
      var told := WithChild(parent, e.index, sep, 0);
      LoadWithin(pages, e.pageID, k, v);
      ChildWithin(parent, e.index, sep, 0, k, v);
      RoomyFits(told, pageSize, k, v);
      if MAX_CHILDREN <= |told.keys| {
        KeyWithin(told, MAX_CHILDREN / 2, k, v);
        ClimbWithin(pages, s, root, path[..n], e.pageID, told.keys[MAX_CHILDREN / 2], pageSize, k, v);
      }
    }
  }

  lemma ParentSize(pages: PageMap, s: Shape, root: PageID, p: PageID)
    requires TreeOk(pages, s, root, {}) && p in s.nodes && Load(pages, p).children != []
    ensures |Load(pages, p).keys| < MAX_CHILDREN && |Load(pages, p).children| == |Load(pages, p).keys| + 1
    ensures Load(pages, p).values == []
  {
    hide Layout, Rank;
    assert PageOk(Load(pages, p), s, s.nodes[p], MAX_CHILDREN - 1);
  }

  /** Whatever bounds held before, and hold of the new entry, still hold. */
  ghost predicate StaysWithin(pages: PageMap, pages': PageMap, key: Bytes, value: Bytes) {
    forall k: nat, v: nat :: Within(pages, k, v) && |key| <= k && |value| <= v ==> Within(pages', k, v)
  }

  ghost predicate PageStays(pages: PageMap, p: Page, key: Bytes, value: Bytes) {
    forall k: nat, v: nat :: Within(pages, k, v) && |key| <= k && |value| <= v ==> PageWithin(p, k, v)
  }

  lemma StaysSame(pages: PageMap, key: Bytes, value: Bytes)
    ensures StaysWithin(pages, pages, key, value)
  {
    hide Within;
  }

  lemma StaysPut(pages: PageMap, pages': PageMap, key: Bytes, value: Bytes, id: PageID, p: Page)
    requires StaysWithin(pages, pages', key, value) && PageStays(pages, p, key, value)
    ensures StaysWithin(pages, pages'[id := p], key, value)
  {
    hide PageWithin;
    forall k: nat, v: nat | Within(pages, k, v) && |key| <= k && |value| <= v
      ensures Within(pages'[id := p], k, v)
    {
      assert Within(pages', k, v);
    }
  }

  /** A second insertion whose separator came from the pages before. */
  lemma StaysTrans(pages: PageMap, pages': PageMap, pages'': PageMap, key: Bytes, value: Bytes, from: Page, sep: Bytes)
    requires StaysWithin(pages, pages', key, value) && StaysWithin(pages', pages'', sep, [])
    requires PageStays(pages, from, key, value) && (sep == [] || sep in from.keys)
    ensures StaysWithin(pages, pages'', key, value)
  {
    hide Within;
    forall k: nat, v: nat | Within(pages, k, v) && |key| <= k && |value| <= v
      ensures Within(pages'', k, v)
    {
      assert PageWithin(from, k, v) && Within(pages', k, v);
    }
  }

  lemma PairStays(pages: PageMap, leaf: Page, key: Bytes, value: Bytes)
    requires leaf == Load(pages, leaf.id) && |leaf.keys| == |leaf.values|
    ensures PageStays(pages, WithPair(leaf, key, value), key, value)
  {
    hide WithPair;
    forall k: nat, v: nat | Within(pages, k, v) && |key| <= k && |value| <= v
      ensures PageWithin(WithPair(leaf, key, value), k, v)
    {
      PairWithin(leaf, key, value, k, v);
    }
  }

  lemma ChildStays(pages: PageMap, parent: Page, i: nat, sep: Bytes, right: PageID)
    requires parent == Load(pages, parent.id) && i <= |parent.keys| && i < |parent.children|
    ensures PageStays(pages, WithChild(parent, i, sep, right), sep, [])
  {
    forall k: nat, v: nat | Within(pages, k, v) && |sep| <= k
      ensures PageWithin(WithChild(parent, i, sep, right), k, v)
    {
      ChildWithin(parent, i, sep, right, k, v);
    }
  }

  /** A page made of a slice of another's keys and values. */
  lemma SliceStays(pages: PageMap, from: Page, p: Page, lo: nat, hi: nat, lo': nat, hi': nat)
    requires from == Load(pages, from.id) && lo <= hi <= |from.keys| && p.keys == from.keys[lo..hi]
    requires p.values == [] || (lo' <= hi' <= |from.values| && p.values == from.values[lo'..hi'])
    ensures PageStays(pages, p, [], [])
  {
    forall k: nat, v: nat | Within(pages, k, v)
      ensures PageWithin(p, k, v)
    {
      LoadWithin(pages, from.id, k, v);
    }
  }

  lemma WithoutStays(pages: PageMap, leaf: Page, i: nat)
    requires leaf == Load(pages, leaf.id) && i < |leaf.keys| && i < |leaf.values|
    ensures PageStays(pages, WithoutEntry(leaf, i), [], [])
  {
    forall k: nat, v: nat | Within(pages, k, v)
      ensures PageWithin(WithoutEntry(leaf, i), k, v)
    {
      LoadWithin(pages, leaf.id, k, v);
    }
  }

  /** Only the lengths of the entry count. */
  lemma StaysAlike(pages: PageMap, pages': PageMap, key: Bytes, value: Bytes, key': Bytes, value': Bytes)
    requires StaysWithin(pages, pages', key, value) && |key| <= |key'| && |value| <= |value'|
    ensures StaysWithin(pages, pages', key', value')
  {
    hide Within;
  }

  lemma StaysAfter(pages: PageMap, pages': PageMap, pages'': PageMap, key: Bytes, value: Bytes)
    requires StaysWithin(pages, pages', [], []) && StaysWithin(pages', pages'', key, value)
    ensures StaysWithin(pages, pages'', key, value)
  {
    hide Within;
  }

  lemma RootStays(pages: PageMap, root: PageID, sep: Bytes, left: PageID, right: PageID)
    ensures PageStays(pages, NewRoot(root, sep, left, right), sep, [])
  {
    hide Within;
  }

  lemma LeafHalvesStay(pages: PageMap, leaf: Page, low: Page, right: Page)
    requires leaf == Load(pages, leaf.id) && |leaf.keys| == |leaf.values| == MAX_CHILDREN
    requires low.keys == leaf.keys[..2] && low.values == leaf.values[..2]
    requires right.keys == leaf.keys[2..] && right.values == leaf.values[2..]
    ensures StaysWithin(pages, pages[low.id := low][right.id := right], [], []) && PageStays(pages, leaf, [], [])
  {
    hide StaysWithin, PageStays;
    StaysSame(pages, [], []);
    SliceStays(pages, leaf, leaf, 0, MAX_CHILDREN, 0, MAX_CHILDREN);
    SliceStays(pages, leaf, low, 0, 2, 0, 2);
    SliceStays(pages, leaf, right, 2, MAX_CHILDREN, 2, MAX_CHILDREN);
    StaysPut(pages, pages, [], [], low.id, low);
    StaysPut(pages, pages[low.id := low], [], [], right.id, right);
  }

  lemma InternalHalvesStay(pages: PageMap, n: Page, low: Page, right: Page)
    requires n == Load(pages, n.id) && |n.keys| == MAX_CHILDREN
    requires low.keys == n.keys[..2] && low.values == n.values && right.keys == n.keys[3..] && right.values == []
    ensures StaysWithin(pages, pages[low.id := low][right.id := right], [], []) && PageStays(pages, n, [], [])
  {
    hide StaysWithin, PageStays;
    StaysSame(pages, [], []);
    SliceStays(pages, n, n, 0, MAX_CHILDREN, 0, |n.values|);
    SliceStays(pages, n, low, 0, 2, 0, |n.values|);
    SliceStays(pages, n, right, 3, MAX_CHILDREN, 0, 0);
    StaysPut(pages, pages, [], [], low.id, low);
    StaysPut(pages, pages[low.id := low], [], [], right.id, right);
  }

  lemma RootHalvesStay(pages: PageMap, leaf: Page, left: Page, right: Page, root: Page)
    requires leaf == Load(pages, leaf.id) && |leaf.keys| == |leaf.values| == MAX_CHILDREN
    requires left.keys == leaf.keys[..2] && left.values == leaf.values[..2]
    requires right.keys == leaf.keys[2..] && right.values == leaf.values[2..]
    requires root.keys == [leaf.keys[2]] && root.values == []
    ensures StaysWithin(pages, pages[left.id := left][right.id := right][root.id := root], [], [])
  {
    hide StaysWithin, PageStays;
    LeafHalvesStay(pages, leaf, left, right);
    SliceStays(pages, leaf, root, 2, 3, 0, 0);
    StaysPut(pages, pages[left.id := left][right.id := right], [], [], root.id, root);
  }

  lemma RaisedStays(pages: PageMap, left: PageID, newLeft: PageID, root: PageID, sep: Bytes, right: PageID)
    ensures StaysWithin(pages,
                        pages[newLeft := Load(pages, left).(id := newLeft)][root := NewRoot(root, sep, newLeft, right)],
                            sep, [])
  {
    hide StaysWithin;
    var moved := Load(pages, left).(id := newLeft);
    StaysSame(pages, sep, []);
    forall k: nat, v: nat | Within(pages, k, v) && |sep| <= k
      ensures PageWithin(moved, k, v)
    {
      LoadWithin(pages, left, k, v);
    }
    RootStays(pages, root, sep, newLeft, right);
    StaysPut(pages, pages, sep, [], newLeft, moved);
    StaysPut(pages, pages[newLeft := moved], sep, [], root, NewRoot(root, sep, newLeft, right));
  }

  lemma StaysHalf(pages: PageMap, s: Shape, root: PageID, path: seq<PathEntry>, left: PageID, sep: Bytes, right: PageID)
    requires path != [] && Pending(pages, s, root, path, left, sep, right)
    ensures HalfSplit(pages, s, root)
  {
    hide Pending;
  }

  /* ---- only pages of the tree are written ---- */

  ghost predicate WrittenInside(pages: PageMap, pages': PageMap, s: Shape) {
    && (forall p :: p in pages ==> p in pages')
    && (forall p :: p in pages' && p !in s.nodes ==> p in pages && pages'[p] == pages[p])
  }

  lemma WrittenSame(pages: PageMap, s: Shape)
    ensures WrittenInside(pages, pages, s)
  {
  }

  lemma WrittenPut(pages: PageMap, pages': PageMap, s: Shape, id: PageID, page: Page)
    requires WrittenInside(pages, pages', s) && id in s.nodes
    ensures WrittenInside(pages, pages'[id := page], s)
  {
  }

  lemma SplitWritten(pages: PageMap, s: Shape, id: PageID, low: Page, right: PageID, high: Page)
    requires id in s.nodes && right in s.nodes
    ensures WrittenInside(pages, pages[id := low][right := high], s)
  {
  }

  lemma RootSplitWritten(pages: PageMap, s: Shape, a: PageID, left: Page, b: PageID, right: Page, c: PageID, root: Page)
    requires a in s.nodes && b in s.nodes && c in s.nodes
    ensures WrittenInside(pages, pages[a := left][b := right][c := root], s)
  {
  }

  lemma WrittenTrans(pages: PageMap, pages': PageMap, s': Shape, pages'': PageMap, s'': Shape)
    requires WrittenInside(pages, pages', s') && WrittenInside(pages', pages'', s'') && s'.nodes.Keys <= s''.nodes.Keys
    ensures WrittenInside(pages, pages'', s'')
  {
    forall p | p in pages'' && p !in s''.nodes
      ensures p in pages && pages''[p] == pages[p]
    {
      assert p !in s'.nodes.Keys;
    }
  }

  lemma NodesGrow(pages: PageMap, s: Shape, next: PageID, pages': PageMap, s': Shape, next': PageID)
    requires Grown(pages, s, next, pages', s', next')
    ensures s.nodes.Keys <= s'.nodes.Keys
  {
  }
}

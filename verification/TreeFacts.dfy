/** What follows, for every page map, from holding a tree. */
module TreeFacts {
  import opened Bytes
  import opened Pages
  import opened TreeShape

  /** A page that was never written is an empty tree. */
  lemma EmptyTree(pages: PageMap, root: PageID)
    requires root !in pages
    ensures TreeOk(pages, Shape(map[root := Info(0, 0.0, 1.0)], map[]), root, {})
  {
  }

  /** Another tree on the same pager, made of other pages, is the same tree
      after an insertion or a failed one. */
  lemma OtherTreeKept(pages: PageMap, s: Shape, next: PageID, pages': PageMap, s': Shape, next': PageID,
                      other: Shape, otherRoot: PageID)
    requires Grown(pages, s, next, pages', s', next')
    requires TreeOk(pages, other, otherRoot, {})
    requires other.nodes.Keys !! s.nodes.Keys
    requires forall p :: p in other.nodes ==> p < next
    ensures TreeOk(pages', other, otherRoot, {}) && other.nodes.Keys !! s'.nodes.Keys
    ensures Dense(pages, other, otherRoot) ==> Dense(pages', other, otherRoot)
    ensures forall p :: p in other.nodes ==> p < next'
  {
    hide LeafOk, InternalOk, Layout;
    forall p | p in other.nodes
      ensures Load(pages', p) == Load(pages, p) && p !in s'.nodes
    {
      assert p !in s.nodes.Keys;
    }
    assert forall p :: p in other.nodes.Keys ==> p !in s'.nodes.Keys;
  }

  /** The child whose interval covers a rank. */
  lemma ChildCovering(pg: Page, s: Shape, n: Info, x: real) returns (c: PageID)
    requires InternalOk(pg, s, n, MAX_CHILDREN) && n.lo <= x < n.hi
    ensures c in pg.children && c in s.nodes && s.nodes[c].level == n.level - 1
    ensures s.nodes[c].lo <= x < s.nodes[c].hi
  {
    var i := 0;
    while i < |pg.keys| && Rank(pg.keys[i]) <= x
      invariant i <= |pg.keys|
      invariant i > 0 ==> Rank(pg.keys[i - 1]) <= x
    {
      i := i + 1;
    }
    c := pg.children[i];
    assert s.nodes[c] == ChildInfo(pg.keys, n, i);
  }

  /** At every level down from the root some page covers every rank. */
  lemma {:induction false} PageCovering(pages: PageMap, s: Shape, root: PageID, level: nat, x: real) returns (p: PageID)
    requires TreeOk(pages, s, root, {}) && level <= s.nodes[root].level && 0.0 <= x < 1.0
    ensures p in s.nodes && s.nodes[p].level == level && s.nodes[p].lo <= x < s.nodes[p].hi
    ensures level < s.nodes[root].level ==>
      exists q :: q in s.nodes && s.nodes[q].level == level + 1 && p in Load(pages, q).children
    decreases s.nodes[root].level - level
  {
    if level == s.nodes[root].level {
      p := root;
    } else {
      var q := PageCovering(pages, s, root, level + 1, x);
      p := CoveredBelow(pages, s, root, q, x);
      assert p in Load(pages, q).children;
    }
  }

  lemma CoveredBelow(pages: PageMap, s: Shape, root: PageID, q: PageID, x: real) returns (p: PageID)
    requires TreeOk(pages, s, root, {}) && q in s.nodes && 0 < s.nodes[q].level && s.nodes[q].lo <= x < s.nodes[q].hi
    ensures p in Load(pages, q).children && p in s.nodes && s.nodes[p].level == s.nodes[q].level - 1
    ensures s.nodes[p].lo <= x < s.nodes[p].hi
  {
    p := ChildCovering(Load(pages, q), s, s.nodes[q], x);
  }

  /** The flat intervals are a tree: every page but the root is listed by
      exactly one other page, one level up, and the root by none. */
  lemma OneParentEach(pages: PageMap, s: Shape, root: PageID, p: PageID)
    requires TreeOk(pages, s, root, {}) && p in s.nodes
    ensures p != root <==> exists q :: q in s.nodes && p in Load(pages, q).children
    ensures forall q :: q in s.nodes && p in Load(pages, q).children ==> s.nodes[q].level == s.nodes[p].level + 1
    ensures forall q, r :: q in s.nodes && r in s.nodes ==>
                             p in Load(pages, q).children && p in Load(pages, r).children ==> q == r
  {
    hide LeafOk, InternalOk;
    forall q | q in s.nodes && p in Load(pages, q).children
      ensures s.nodes[q].level == s.nodes[p].level + 1
    {
      ChildInside(Load(pages, q), s, s.nodes[q], MAX_CHILDREN - 1, p);
    }
    forall q, r | q in s.nodes && r in s.nodes && p in Load(pages, q).children && p in Load(pages, r).children
      ensures q == r
    {
      OneParent(q, Load(pages, q), r, Load(pages, r), s, MAX_CHILDREN - 1, p);
    }
    if p != root {
      assert s.nodes[p].level < s.nodes[root].level;
      var p' := PageCovering(pages, s, root, s.nodes[p].level, s.nodes[p].lo);
      assert Apart(s.nodes[p], s.nodes[p']) || p == p';
    }
  }

  /* ---- height ---- */

  ghost function KeysUnder(s: Shape, n: Info): set<Bytes> {
    set k | k in s.contents && Covers(n, k)
  }

  /** In a tree that was never deleted from, a page h levels above the leaves
      has at least 2^(h+1) keys under it. */
  lemma {:induction false} KeysBelow(pages: PageMap, s: Shape, root: PageID, p: PageID)
    requires TreeOk(pages, s, root, {}) && Dense(pages, s, root)
    requires p in s.nodes && (p != root || 0 < s.nodes[p].level)
    ensures Pow2(s.nodes[p].level + 1) <= |KeysUnder(s, s.nodes[p])|
    decreases s.nodes[p].level
  {
    hide LeafOk, InternalOk, Layout, Dense, Rank;
    var n := s.nodes[p];
    if n.level == 0 {
      TwoKeys(pages, s, root, p);
    } else {
      var c, d := TwoChildren(pages, s, root, p);
      KeysBelow(pages, s, root, c);
      KeysBelow(pages, s, root, d);
      UnderBoth(s, s.nodes[c], s.nodes[d], n);
    }
  }

  lemma UnderBoth(s: Shape, c: Info, d: Info, n: Info)
    requires n.lo <= c.lo && c.hi <= d.lo && c.hi <= n.hi && n.lo <= d.lo && d.hi <= n.hi
    ensures |KeysUnder(s, c)| + |KeysUnder(s, d)| <= |KeysUnder(s, n)|
  {
    hide Rank;
    assert KeysUnder(s, c) !! KeysUnder(s, d);
    assert |KeysUnder(s, c) + KeysUnder(s, d)| == |KeysUnder(s, c)| + |KeysUnder(s, d)|;
    SmallerSet(KeysUnder(s, c) + KeysUnder(s, d), KeysUnder(s, n));
  }

  lemma TwoKeys(pages: PageMap, s: Shape, root: PageID, p: PageID)
    requires TreeOk(pages, s, root, {}) && Dense(pages, s, root)
    requires p in s.nodes && s.nodes[p].level == 0 && p != root
    ensures 2 <= |KeysUnder(s, s.nodes[p])|
  {
    var keys := Load(pages, p).keys;
    assert Rank(keys[0]) < Rank(keys[1]);
    assert {keys[0], keys[1]} <= KeysUnder(s, s.nodes[p]);
    SmallerSet({keys[0], keys[1]}, KeysUnder(s, s.nodes[p]));
  }

  lemma TwoChildren(pages: PageMap, s: Shape, root: PageID, p: PageID) returns (c: PageID, d: PageID)
    requires TreeOk(pages, s, root, {}) && p in s.nodes && 0 < s.nodes[p].level
    ensures c in s.nodes && d in s.nodes && c != root && d != root
    ensures s.nodes[c].level == s.nodes[d].level == s.nodes[p].level - 1
    ensures s.nodes[p].lo <= s.nodes[c].lo && s.nodes[c].hi <= s.nodes[p].hi
    ensures s.nodes[p].lo <= s.nodes[d].lo && s.nodes[d].hi <= s.nodes[p].hi
    ensures s.nodes[c].hi <= s.nodes[d].lo
  {
    var pg := Load(pages, p);
    assert PageOk(pg, s, s.nodes[p], MAX_CHILDREN - 1);
    c, d := pg.children[0], pg.children[1];
    assert s.nodes[c] == ChildInfo(pg.keys, s.nodes[p], 0) && s.nodes[d] == ChildInfo(pg.keys, s.nodes[p], 1);
    assert c in pg.children && d in pg.children;
    ChildInside(pg, s, s.nodes[p], MAX_CHILDREN - 1, c);
    ChildInside(pg, s, s.nodes[p], MAX_CHILDREN - 1, d);
  }

  lemma {:induction false} SmallerSet<T>(a: set<T>, b: set<T>)
    requires a <= b
    ensures |a| <= |b|
  {
    if a != {} {
      var x :| x in a;
      SmallerSet(a - {x}, b - {x});
    }
  }

  /** A tree of h >= 1 internal levels, never deleted from, holds at least
      2^(h+1) keys, so a search loads at most log2 of the key count pages. */
  lemma HeightBound(pages: PageMap, s: Shape, root: PageID, path: seq<PathEntry>, leaf: PageID)
    requires TreeOk(pages, s, root, {}) && Dense(pages, s, root)
    requires PathOk(pages, s, root, path, leaf) && s.nodes[leaf].level == 0
    ensures |path| == s.nodes[root].level
    ensures path != [] ==> Pow2(|path| + 1) <= |s.contents|
  {
    if path != [] {
      assert StepOk(pages, s, path[0], Below(path, 0, leaf), s.nodes[leaf].level + |path|);
      KeysBelow(pages, s, root, root);
      SmallerSet(KeysUnder(s, s.nodes[root]), s.contents.Keys);
      assert |s.contents.Keys| == |s.contents|;
    }
  }

  /* ---- listings ---- */

  /** keys and values list, in ascending key order, exactly the entries of m with rank in [lo, hi). */
  ghost predicate Listing(keys: seq<Bytes>, values: seq<Bytes>, m: map<Bytes, Bytes>, lo: real, hi: real) {
    && |keys| == |values|
    && Sorted(keys)
    && (forall i :: 0 <= i < |keys| ==> keys[i] in m && m[keys[i]] == values[i] && lo <= Rank(keys[i]) < hi)
    && (forall k :: k in m && lo <= Rank(k) < hi ==> k in keys)
  }

  lemma ListingJoins(k1: seq<Bytes>, v1: seq<Bytes>, k2: seq<Bytes>, v2: seq<Bytes>,
                     m: map<Bytes, Bytes>, lo: real, mid: real, hi: real)
    requires Listing(k1, v1, m, lo, mid) && Listing(k2, v2, m, mid, hi) && lo <= mid <= hi
    ensures Listing(k1 + k2, v1 + v2, m, lo, hi)
  {
    hide Rank;
  }

  lemma LeafLists(pages: PageMap, s: Shape, root: PageID, leaf: Page)
    requires TreeOk(pages, s, root, {}) && leaf.id in s.nodes && leaf == Load(pages, leaf.id)
    requires s.nodes[leaf.id].level == 0
    ensures Listing(leaf.keys, leaf.values, s.contents, s.nodes[leaf.id].lo, s.nodes[leaf.id].hi)
    ensures 0.0 <= s.nodes[leaf.id].lo < s.nodes[leaf.id].hi <= 1.0
    ensures ChainOk(leaf.nextLeaf, s, s.nodes[leaf.id])
  {
  }

  /** Two listings of the same entries are the same listing. */
  lemma {:induction false} ListingUnique(k1: seq<Bytes>, v1: seq<Bytes>, k2: seq<Bytes>, v2: seq<Bytes>,
                                         m: map<Bytes, Bytes>, lo: real, hi: real)
    requires Listing(k1, v1, m, lo, hi) && Listing(k2, v2, m, lo, hi)
    ensures k1 == k2 && v1 == v2
  {
    hide Rank;
    SortedUnique(k1, k2);
  }

  lemma {:induction false} SortedUnique(a: seq<Bytes>, b: seq<Bytes>)
    requires Sorted(a) && Sorted(b) && forall k :: k in a <==> k in b
    ensures a == b
  {
    if a == [] || b == [] {
      HasFirst(a);
      HasFirst(b);
    } else {
      assert a[0] in b && b[0] in a;
      assert a[0] == b[0] by {
        CompareIsRank(a[0], b[0]);
      }
      forall k
        ensures k in a[1..] <==> k in b[1..]
      {
        InTail(a, k);
        InTail(b, k);
      }
      SortedUnique(a[1..], b[1..]);
      assert a == [a[0]] + a[1..] && b == [b[0]] + b[1..];
    }
  }

  lemma HasFirst(a: seq<Bytes>)
    ensures a != [] ==> a[0] in a
  {
  }

  lemma InTail(a: seq<Bytes>, k: Bytes)
    requires Sorted(a) && a != []
    ensures k in a[1..] <==> k in a && k != a[0]
  {
    if k in a && k != a[0] {
      var j :| 0 <= j < |a| && a[j] == k;
      assert a[1..][j - 1] == k;
    }
    if k in a[1..] {
      var j :| 0 <= j < |a[1..]| && a[1..][j] == k;
      assert a[j + 1] == k && Rank(a[0]) < Rank(a[j + 1]);
    }
  }

  /** A page has at most three keys; one that is not a leaf has a key at least, and
      one child more than keys. */
  lemma NodeSizes(pages: PageMap, s: Shape, root: PageID, p: PageID)
    requires TreeOk(pages, s, root, {}) && p in s.nodes
    ensures var pg := Load(pages, p);
      && |pg.keys| <= 3 && (pg.isLeaf <==> s.nodes[p].level == 0)
      && (if pg.isLeaf then |pg.values| == |pg.keys| && pg.children == []
          else 1 <= |pg.keys| && |pg.children| == |pg.keys| + 1 <= 4)
  {
    hide Layout, Rank, Sorted;
    assert PageOk(Load(pages, p), s, s.nodes[p], MAX_CHILDREN - 1);
  }
}

/** Bounds on values, rows and keys under which no page is ever full. */
module Limits {
  import opened Options
  import opened Bytes
  import opened Pages
  import opened TreeShape
  import opened TreeRoom
  import opened Codec
  import opened Rows
  import opened IndexKeys

  /** No value takes more than u bytes, its type tag included. */
  predicate ValuesWithin(row: Row, u: nat) {
    forall i :: 0 <= i < |row| ==> |ValueBytes(row[i])| <= u
  }

  ghost predicate RowsWithin(table: map<Bytes, Bytes>, u: nat) {
    forall k :: k in table && Decoded(table[k]).RowOk? ==> ValuesWithin(Decoded(table[k]).row, u)
  }

  /** A key on c columns; row keys take eight bytes. */
  function KeyLimit(c: nat, u: nat): nat {
    if 1 + c * u < 8 then 8 else 1 + c * u
  }

  /** A row of w columns; the row IDs in an index take eight bytes. */
  function RowLimit(w: nat, u: nat): nat {
    if 2 + w * u < 8 then 8 else 2 + w * u
  }

  /** Every page has room for rows of w values and keys on c of them, if no value
      takes more than u bytes. */
  ghost predicate Ample(pages: PageMap, pageSize: nat, w: nat, u: nat, c: nat) {
    Within(pages, KeyLimit(c, u), RowLimit(w, u)) && Roomy(pageSize, KeyLimit(c, u), RowLimit(w, u))
  }

  /** Whatever bounds the pages and the entry keep, they leave too little room. */
  ghost predicate Cramped(pages: PageMap, pageSize: nat, key: Bytes, value: Bytes) {
    forall k: nat, v: nat :: Within(pages, k, v) && |key| <= k && |value| <= v ==> !Roomy(pageSize, k, v)
  }

  lemma NoRoomIsCramped(pages: PageMap, s: Shape, root: PageID, key: Bytes, value: Bytes, pageSize: nat)
    requires TreeOk(pages, s, root, {}) && !HasRoom(pages, s, root, key, value, pageSize)
    ensures Cramped(pages, pageSize, key, value)
  {
    hide TreeOk, HasRoom, Within, Roomy;
    forall k: nat, v: nat | Within(pages, k, v) && |key| <= k && |value| <= v
      ensures !Roomy(pageSize, k, v)
    {
      if Roomy(pageSize, k, v) {
        WithinHasRoom(pages, s, root, key, value, pageSize, k, v);
      }
    }
  }

  lemma CrampedBefore(pages: PageMap, pages': PageMap, pageSize: nat, key: Bytes, value: Bytes)
    requires StaysWithin(pages, pages', [], []) && Cramped(pages', pageSize, key, value)
    ensures Cramped(pages, pageSize, key, value)
  {
    hide Within, Roomy;
  }

  lemma CrampedAlike(pages: PageMap, pageSize: nat, key: Bytes, value: Bytes, value': Bytes)
    requires Cramped(pages, pageSize, key, value) && |value| == |value'|
    ensures Cramped(pages, pageSize, key, value')
  {
    hide Within, Roomy;
  }

  lemma AmpleStays(pages: PageMap, pages': PageMap, pageSize: nat, w: nat, u: nat, c: nat, key: Bytes, value: Bytes)
    requires Ample(pages, pageSize, w, u, c) && |key| <= KeyLimit(c, u) && |value| <= RowLimit(w, u)
    ensures StaysWithin(pages, pages', key, value) ==> Ample(pages', pageSize, w, u, c)
    ensures !Cramped(pages, pageSize, key, value)
  {
    hide Within, Roomy, KeyLimit, RowLimit;
  }

  lemma AmpleHasRoom(pages: PageMap, s: Shape, root: PageID, key: Bytes, value: Bytes, pageSize: nat, w: nat, u: nat,
                     c: nat)
    requires TreeOk(pages, s, root, {}) && Ample(pages, pageSize, w, u, c)
    requires |key| <= KeyLimit(c, u) && |value| <= RowLimit(w, u)
    ensures HasRoom(pages, s, root, key, value, pageSize)
  {
    hide TreeOk, HasRoom, Within, Roomy, KeyLimit, RowLimit;
    WithinHasRoom(pages, s, root, key, value, pageSize, KeyLimit(c, u), RowLimit(w, u));
  }

  lemma {:induction false} ValuesLength(row: Row, u: nat)
    requires ValuesWithin(row, u)
    ensures |ValuesBytes(row)| <= |row| * u
  {
    hide ValueBytes;
    if row != [] {
      ValuesLength(row[1..], u);
      assert |row| * u == |row[1..]| * u + u;
    }
  }

  lemma RowLength(row: Row, u: nat)
    requires ValuesWithin(row, u)
    ensures |RowBytes(row)| <= RowLimit(|row|, u)
  {
    hide ValuesBytes, ValueBytes, LE;
    ValuesLength(row, u);
  }

  lemma {:induction false} PartsLength(values: Row, u: nat)
    requires ValuesWithin(values, u)
    ensures |KeyParts(values)| <= |values| * u
  {
    hide ValueBytes, KeyPart;
    if values != [] {
      PartsLength(values[1..], u);
      PartShorter(values[0]);
      assert |values| * u == |values[1..]| * u + u;
    }
  }

  lemma PartShorter(v: Value)
    ensures |KeyPart(v)| <= |ValueBytes(v)|
  {
  }

  lemma KeyLength(c: Columns, row: Row, u: nat, n: nat)
    requires ValuesWithin(row, u) && |c.on| <= n
    ensures |KeyBytes(c, row)| <= KeyLimit(n, u)
  {
    hide KeyParts, ValueBytes;
    if KeyOf(c, row).Some? {
      PartsLength(Projected(c, row), u);
      assert |c.on| * u <= n * u;
    }
  }

  lemma StoredWithin(row: Row, u: nat)
    requires ValuesWithin(row, u)
    ensures ValuesWithin(RowAsStored(row), u)
  {
    hide LE;
    forall i | 0 <= i < |row|
      ensures |ValueBytes(AsStored(row[i]))| == |ValueBytes(row[i])|
    {
    }
  }
}

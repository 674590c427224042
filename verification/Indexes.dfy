/** Indexes: trees from computed keys to row IDs. */
module Indexes {
  import opened Options
  import opened Bytes
  import opened Pages
  import opened TreeShape
  import opened TreeFacts
  import opened TreeRoom
  import opened BTree
  import opened Codec
  import opened Rows
  import opened IndexKeys
  import opened Limits

  datatype IndexResult = Indexed | NoKey | Duplicate | NotFound | PageFull

  /** Every entry names a row by its encoded ID. */
  ghost predicate NamesRows(index: map<Bytes, Bytes>) {
    forall x :: x in index ==> |index[x]| == 8
  }

  /** Adding a row's entry, as the contents before and after see it: a unique
      index refuses a key it already has. */
  ghost predicate Adds(c: Columns, unique: bool, index: map<Bytes, Bytes>, id: int, row: Row, r: IndexResult,
                       index': map<Bytes, Bytes>) {
    && !r.NotFound?
    && (r.NoKey? <==> KeyOf(c, row).None?)
    && (r.Duplicate? <==> KeyOf(c, row).Some? && unique && KeyOf(c, row).value in index)
    && (r.Indexed? ==> index' == index[KeyOf(c, row).value := EncodeKey(id)])
    && (r.NoKey? || r.Duplicate? ==> index' == index)
  }

  /** Moving a row's entry from its original key to its updated one. */
  ghost predicate Moves(c: Columns, unique: bool, index: map<Bytes, Bytes>, original: Row, updated: Row, r: IndexResult,
                        index': map<Bytes, Bytes>) {
    var was, now := KeyOf(c, original), KeyOf(c, updated);
    && (r.NotFound? <==> was.Some? && was.value !in index)
    && (r.NoKey? <==> was.None? || (was.value in index && now.None?))
    && (r.Duplicate? <==> was.Some? && was.value in index && now.Some? && unique && now.value in index - {was.value})
    && (r.Indexed? ==> was.Some? && was.value in index && now.Some?)
    && (r.Indexed? ==> index' == (index - {was.value})[now.value := index[was.value]])
    && (was.None? || was.value !in index ==> index' == index)
    && (was.Some? && was.value in index && (r.NoKey? || r.Duplicate?) ==> index' == index - {was.value})
  }

  class Index {
    const unique: bool
    const columns: Columns
    const idxTree: Tree

    constructor (unique: bool, columns: Columns, idxTree: Tree)
      ensures this.unique == unique && this.columns == columns && this.idxTree == idxTree
    {
      this.unique, this.columns, this.idxTree := unique, columns, idxTree;
    }

    method ComputeKey(row: Row) returns (key: Bytes, ok: bool)
      requires AllWellTyped(row)
      ensures ok <==> KeyOf(columns, row).Some?
      ensures ok ==> KeyOf(columns, row) == Some(key)
    {
      hide KeyParts;
      key := [];
      var keyValues: Row := [];
      var j := 0;
      while j < |columns.on|
        invariant j <= |columns.on| && |keyValues| == j && AllWellTyped(keyValues)
        invariant forall i :: 0 <= i < j ==>
          columns.on[i] in columns.ordinals && columns.ordinals[columns.on[i]] < |row|
        invariant forall i :: 0 <= i < j ==> keyValues[i] == row[columns.ordinals[columns.on[i]]]
      {
        var col := columns.on[j];
        if col !in columns.ordinals || columns.ordinals[col] >= |row| {
          return key, false;
        }
        keyValues := keyValues + [row[columns.ordinals[col]]];
        j := j + 1;
      }
      assert keyValues == Projected(columns, row);
      key, ok := EncodeMixedArray(keyValues);
    }

    /** A unique index takes a key only once. */
    method CheckUnique(key: Bytes) returns (free: bool)
      requires idxTree.Valid()
      ensures free <==> !unique || key !in idxTree.shape.contents
    {
      if !unique {
        return true;
      }
      var exists' := idxTree.Contains(key);
      free := !exists';
    }

    /** Adds the row's entry; a unique index refuses a key it already has, and
        any index one that its pages have no room for. */
    method Insert(id: int, row: Row) returns (r: IndexResult)
      requires idxTree.Valid() && AllWellTyped(row)
      modifies idxTree`shape, idxTree.pager`pages, idxTree.pager`nextID
      ensures Adds(columns, unique, old(idxTree.shape.contents), id, row, r, idxTree.shape.contents)
      ensures r.Indexed? || r.PageFull? ==>
                KeyOf(columns, row).Some? &&
                (r.Indexed? <==> old(HasRoom(idxTree.pager.pages, idxTree.shape, idxTree.rootID,
                                             KeyOf(columns, row).value, EncodeKey(id), idxTree.pager.pageSize)))
      ensures r.PageFull? ==>
        Cramped(old(idxTree.pager.pages), idxTree.pager.pageSize, KeyBytes(columns, row), EncodeKey(0))
      ensures StaysWithin(old(idxTree.pager.pages), idxTree.pager.pages, KeyBytes(columns, row), EncodeKey(0))
      ensures !r.PageFull? ==> idxTree.Valid()
      ensures idxTree.pager.Tidy()
      ensures Grown(old(idxTree.pager.pages), old(idxTree.shape), old(idxTree.pager.nextID),
                    idxTree.pager.pages, idxTree.shape, idxTree.pager.nextID)
    {
      hide TreeOk, KeyOf, EncodeKey, HasRoom, StaysWithin, HalfSplit, Cramped;
      ghost var pages0, s0 := idxTree.pager.pages, idxTree.shape;
      GrownSame(idxTree.pager.pages, idxTree.shape, idxTree.pager.nextID);
      StaysSame(pages0, KeyBytes(columns, row), EncodeKey(0));
      var computed, ok := ComputeKey(row);
      if !ok {
        return NoKey;
      }
      var free := CheckUnique(computed);
      if !free {
        return Duplicate;
      }
      var saved := idxTree.Insert(computed, EncodeKey(id));
      r := if saved then Indexed else PageFull;
      StaysAlike(pages0, idxTree.pager.pages, computed, EncodeKey(id), computed, EncodeKey(0));
      if !saved {
        NoRoomIsCramped(pages0, s0, idxTree.rootID, computed, EncodeKey(id), idxTree.pager.pageSize);
        CrampedAlike(pages0, idxTree.pager.pageSize, computed, EncodeKey(id), EncodeKey(0));
      }
    }

    method Lookup(row: Row) returns (id: int, found: bool, ok: bool)
      requires idxTree.Valid() && AllWellTyped(row) && NamesRows(idxTree.shape.contents)
      ensures ok <==> KeyOf(columns, row).Some?
      ensures ok ==> (found <==> KeyOf(columns, row).value in idxTree.shape.contents)
      ensures ok && found ==> EncodeKey(id) == idxTree.shape.contents[KeyOf(columns, row).value]
    {
      hide TreeOk, KeyOf, EncodeKey, DecodeKey;
      id, found := 0, false;
      var computedKey;
      computedKey, ok := ComputeKey(row);
      if !ok {
        return;
      }
      var encRowID, there := idxTree.Search(computedKey);
      found := there;
      if found {
        KeyOfDecoded(encRowID);
        id := DecodeKey(encRowID);
      }
    }

    /** Moves a row's entry from its original key to its new one. The original
        entry is deleted first, so a refused new key leaves the row without one. */
    method UpdateIndexEntry(originalRow: Row, updatedRow: Row) returns (r: IndexResult)
      requires idxTree.Valid() && AllWellTyped(originalRow) && AllWellTyped(updatedRow)
      requires NamesRows(idxTree.shape.contents)
      modifies idxTree`shape, idxTree.pager`pages, idxTree.pager`nextID
      ensures Moves(columns, unique, old(idxTree.shape.contents), originalRow, updatedRow, r, idxTree.shape.contents)
      ensures r.PageFull? ==>
        Cramped(old(idxTree.pager.pages), idxTree.pager.pageSize, KeyBytes(columns, updatedRow), EncodeKey(0))
      ensures StaysWithin(old(idxTree.pager.pages), idxTree.pager.pages, KeyBytes(columns, updatedRow), EncodeKey(0))
      ensures !r.PageFull? ==> idxTree.Valid()
      ensures idxTree.pager.Tidy()
      ensures Grown(old(idxTree.pager.pages), old(idxTree.shape), old(idxTree.pager.nextID),
                    idxTree.pager.pages, idxTree.shape, idxTree.pager.nextID)
    {
      hide TreeOk, KeyOf, EncodeKey, Grown, Pager.Tidy, StaysWithin, Cramped, KeyBytes, HasRoom;
      ghost var pages0, s0, next0 := idxTree.pager.pages, idxTree.shape, idxTree.pager.nextID;
      GrownSame(pages0, s0, next0);
      StaysSame(pages0, KeyBytes(columns, updatedRow), EncodeKey(0));
      var originalKey, ok := ComputeKey(originalRow);
      if !ok {
        return NoKey;
      }
      var rowID, found, _ := Lookup(originalRow);
      if !found {
        return NotFound;
      }
      var _ := idxTree.Delete(originalKey);
      ghost var pages1, s1, next1 := idxTree.pager.pages, idxTree.shape, idxTree.pager.nextID;
      r := Insert(rowID, updatedRow);
      StaysAfter(pages0, pages1, idxTree.pager.pages, KeyBytes(columns, updatedRow), EncodeKey(0));
      if r.PageFull? {
        CrampedBefore(pages0, pages1, idxTree.pager.pageSize, KeyBytes(columns, updatedRow), EncodeKey(0));
      }
      GrownTrans(pages0, s0, next0, pages1, s1, next1, idxTree.pager.pages, idxTree.shape, idxTree.pager.nextID);
    }
  }
}

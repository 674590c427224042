/** B+ tree pages as values, and how much room one takes when it is encoded. */
module Pages {
  import opened Bytes
  import opened Metadata

  type PageID = int

  const ROOT_SCHEMA_PAGE: PageID := 0
  const HEADER_SIZE: nat := 32
  const LEAF_SLOT_SIZE: nat := 8
  const INTERNAL_SLOT_SIZE: nat := 12

  datatype Page = Page(
    id: PageID,
    isLeaf: bool,
    numKeys: nat,
    nextLeaf: PageID,
    keys: seq<Bytes>,
    values: seq<Bytes>,
    children: seq<PageID>)

  function EmptyLeaf(id: PageID): Page {
    Page(id, true, 0, 0, [], [], [])
  }

  function TotalLength(parts: seq<Bytes>): nat {
    if parts == [] then 0 else |parts[0]| + TotalLength(parts[1..])
  }

  function SlotSize(isLeaf: bool): nat {
    if isLeaf then LEAF_SLOT_SIZE else INTERNAL_SLOT_SIZE
  }

  /** The room a page may fill: page 0 lies in one block behind the header. */
  function Room(id: PageID, pageSize: nat): int {
    if id == ROOT_SCHEMA_PAGE then pageSize - METADATA_LENGTH else pageSize
  }

  function SlotTableEnd(p: Page): nat {
    HEADER_SIZE + (|p.keys| + if p.isLeaf then 0 else 1) * SlotSize(p.isLeaf)
  }

  function DataLength(p: Page): nat {
    TotalLength(p.keys) + if p.isLeaf then TotalLength(p.values) else 0
  }

  predicate Fits(p: Page, pageSize: nat) {
    SlotTableEnd(p) + DataLength(p) <= Room(p.id, pageSize)
  }

  /** The room a page takes, in bytes: 32 of header, eight for every entry of a leaf
      or twelve for every child, and its keys and values, on page 0 beside 100 bytes
      of database header. */
  lemma FitsInBytes(p: Page, pageSize: nat)
    requires p.isLeaf || |p.children| == |p.keys| + 1
    ensures Fits(p, pageSize) <==>
      var data := TotalLength(p.keys) + if p.isLeaf then TotalLength(p.values) else 0;
      32 + (if p.isLeaf then 8 * |p.keys| else 12 * |p.children|) + data + (if p.id == 0 then 100 else 0) <= pageSize
  {
    hide TotalLength;
  }

  lemma {:induction false} LengthAdds(parts: seq<Bytes>, part: Bytes)
    ensures TotalLength([]) == 0 && TotalLength(parts + [part]) == TotalLength(parts) + |part|
  {
    if parts == [] {
      assert ([] + [part])[1..] == [];
    } else {
      LengthAdds(parts[1..], part);
      assert (parts + [part])[1..] == parts[1..] + [part];
    }
  }
}

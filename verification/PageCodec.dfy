/** The slotted page layout: a slot table growing forward from the header and
    key and value bytes growing backward from the end of the page. */
module PageCodec {
  import opened Bytes
  import opened Files
  import opened Pages

  const MAGIC_LEAF: nat := 0x4C45_4146
  const MAGIC_INTERNAL: nat := 0x494E_5445
  const HEADER_FIELDS: nat := 15

  datatype Slot = Slot(keyOff: nat, keyLen: nat, valueOff: nat, valueLen: nat, childID: PageID)

  datatype DecodeResult =
    | PageOk(page: Page)
    | EmptyPage
    | BadMagic
    | SlotPastPage
    | KeyPastPage
    | ValuePastPage
    | LastChildPastPage

  function SlotStart(i: nat, isLeaf: bool): nat {
    HEADER_SIZE + if isLeaf then LEAF_SLOT_SIZE * i else INTERNAL_SLOT_SIZE * i
  }

  /* ---- decoding ---- */

  function SlotAt(buf: Bytes, at: nat, isLeaf: bool): Slot
    requires at + SlotSize(isLeaf) <= |buf|
  {
    var off, len := LEValue(buf[at..at + 2]), LEValue(buf[at + 2..at + 4]);
    if isLeaf then Slot(off, len, LEValue(buf[at + 4..at + 6]), LEValue(buf[at + 6..at + 8]), 0)
    else Slot(off, len, 0, 0, ToInt64(LEValue(buf[at + 4..at + 12])))
  }

  /** The page made of the first n slots. */
  function FirstSlots(buf: Bytes, p: Page, n: nat): DecodeResult {
    if n == 0 then PageOk(p)
    else
      var r := FirstSlots(buf, p, n - 1);
      if !r.PageOk? then r
      else if SlotStart(n - 1, p.isLeaf) + SlotSize(p.isLeaf) > |buf| then SlotPastPage
      else WithSlot(buf, r.page, SlotAt(buf, SlotStart(n - 1, p.isLeaf), p.isLeaf), p.isLeaf)
  }

  function WithSlot(buf: Bytes, p: Page, s: Slot, isLeaf: bool): DecodeResult {
    if s.keyOff + s.keyLen > |buf| then KeyPastPage
    else
      var keys := p.keys + [buf[s.keyOff..s.keyOff + s.keyLen]];
      if !isLeaf then PageOk(p.(keys := keys, children := p.children + [s.childID]))
      else if s.valueOff + s.valueLen > |buf| then ValuePastPage
      else PageOk(p.(keys := keys, values := p.values + [buf[s.valueOff..s.valueOff + s.valueLen]]))
  }

  /** What a stored page decodes to; the page's ID is not stored. */
  function Decoded(buf: Bytes): DecodeResult
    requires HEADER_FIELDS <= |buf|
  {
    var magic := LEValue(buf[0..4]);
    if magic == 0 then EmptyPage
    else if magic != MAGIC_LEAF && magic != MAGIC_INTERNAL then BadMagic
    else
      var n := LEValue(buf[5..7]);
      var p := Page(0, buf[4] == 1, n, ToInt64(LEValue(buf[7..15])), [], [], []);
      var r := FirstSlots(buf, p, n);
      if !r.PageOk? || p.isLeaf then r
      else if SlotStart(n, false) + INTERNAL_SLOT_SIZE > |buf| then LastChildPastPage
      else PageOk(r.page.(children := r.page.children + [SlotAt(buf, SlotStart(n, false), false).childID]))
  }

  method Decode(buf: Bytes) returns (r: DecodeResult)
    requires HEADER_FIELDS <= |buf|
    ensures r == Decoded(buf)
  {
    hide LEValue, WithSlot;
    var magic := LEValue(buf[0..4]);
    if magic == 0 {
      return EmptyPage;
    }
    var isLeaf := buf[4] == 1;
    if magic != MAGIC_LEAF && magic != MAGIC_INTERNAL {
      return BadMagic;
    }
    var numKeys := LEValue(buf[5..7]);
    var next := ToInt64(LEValue(buf[7..15]));
    ghost var empty := Page(0, isLeaf, numKeys, next, [], [], []);
    var p := Page(0, isLeaf, numKeys, next, [], [], []);
    var i := 0;
    while i < numKeys
      invariant i <= numKeys && FirstSlots(buf, empty, i) == PageOk(p)
    {
      Continues(buf, empty, i, numKeys);
      var slotStart := SlotStart(i, isLeaf);
      if slotStart + SlotSize(isLeaf) > |buf| {
        return SlotPastPage;
      }
      var s := SlotAt(buf, slotStart, isLeaf);
      r := WithSlot(buf, p, s, isLeaf);
      if !r.PageOk? {
        return;
      }
      p := r.page;
      i := i + 1;
    }
    if !isLeaf {
      var lastSlot := SlotStart(numKeys, false);
      if lastSlot + INTERNAL_SLOT_SIZE > |buf| {
        return LastChildPastPage;
      }
      p := p.(children := p.children + [SlotAt(buf, lastSlot, false).childID]);
    }
    r := PageOk(p);
  }

  /** The first slot that cannot be read decides the error. */
  lemma {:induction false} Continues(buf: Bytes, p: Page, i: nat, n: nat)
    requires i < n
    ensures !FirstSlots(buf, p, i + 1).PageOk? ==> FirstSlots(buf, p, n) == FirstSlots(buf, p, i + 1)
  {
    if i + 1 < n {
      Continues(buf, p, i, n - 1);
    }
  }

  /* ---- what a well-laid-out buffer is ---- */

  /** An encodable page: fields parallel, numbers in the range of their types. */
  ghost predicate Encodable(p: Page) {
    && p.numKeys == |p.keys| < TWO_16
    && -TWO_63 <= p.nextLeaf < TWO_63
    && (if p.isLeaf then |p.values| == |p.keys| && p.children == []
        else |p.children| == |p.keys| + 1 && p.values == [] && forall c :: c in p.children ==> -TWO_63 <= c < TWO_63)
  }

  /** The offset just past the data area that 16-bit slot offsets reach. */
  function Top(room: int): int {
    if room <= TWO_16 then room else if room % TWO_16 == 0 then TWO_16 else room % TWO_16
  }

  /** The slot table and the data meet inside the reach of 16-bit offsets. On a
      page of at most 65536 bytes this is the encoder's own overflow check. */
  predicate Reaches(p: Page, pageSize: nat) {
    SlotTableEnd(p) + DataLength(p) <= Top(Room(p.id, pageSize))
  }

  ghost predicate HeaderIs(buf: Bytes, p: Page)
    requires HEADER_FIELDS <= |buf|
  {
    && LEValue(buf[0..4]) == (if p.isLeaf then MAGIC_LEAF else MAGIC_INTERNAL)
    && (buf[4] == 1 <==> p.isLeaf)
    && LEValue(buf[5..7]) == p.numKeys
    && ToInt64(LEValue(buf[7..15])) == p.nextLeaf
  }

  /** The bytes of part lie at off, above low unless there are none. */
  ghost predicate Placed(buf: Bytes, off: nat, len: nat, part: Bytes, low: nat) {
    && len == |part| && off + len <= |buf| && buf[off..off + len] == part
    && (part == [] || low <= off)
  }

  ghost predicate EntryAt(buf: Bytes, p: Page, i: nat, low: nat)
    requires i < |p.keys| && (if p.isLeaf then i < |p.values| else i < |p.children|)
  {
    && SlotStart(i, p.isLeaf) + SlotSize(p.isLeaf) <= |buf|
    && var s := SlotAt(buf, SlotStart(i, p.isLeaf), p.isLeaf);
      && Placed(buf, s.keyOff, s.keyLen, p.keys[i], low)
      && (p.isLeaf ==> Placed(buf, s.valueOff, s.valueLen, p.values[i], low))
      && (!p.isLeaf ==> s.childID == p.children[i])
  }

  /** The first n entries are in place; all their data lies at or above low. */
  ghost predicate Entries(buf: Bytes, p: Page, n: nat, low: nat) {
    && n <= |p.keys| && (if p.isLeaf then n <= |p.values| else n <= |p.children|)
    && forall i :: 0 <= i < n ==> EntryAt(buf, p, i, low)
  }

  /** A buffer that holds all of a page, with the data above the slot table. */
  ghost predicate Holds(buf: Bytes, p: Page) {
    && HEADER_FIELDS <= |buf| && HeaderIs(buf, p)
    && Entries(buf, p, |p.keys|, SlotTableEnd(p))
    && (!p.isLeaf ==>
          SlotStart(|p.keys|, false) + INTERNAL_SLOT_SIZE <= |buf| && |p.children| > 0 &&
          SlotAt(buf, SlotStart(|p.keys|, false), false).childID == p.children[|p.children| - 1])
  }

  /** A buffer that holds a page decodes to it. */
  lemma HoldsDecodes(buf: Bytes, p: Page)
    requires Encodable(p) && Holds(buf, p)
    ensures Decoded(buf) == PageOk(p.(id := 0))
  {
    hide LEValue, EntryAt;
    var empty := Page(0, p.isLeaf, p.numKeys, p.nextLeaf, [], [], []);
    FirstEntries(buf, p, |p.keys|, SlotTableEnd(p));
    assert p.keys[..|p.keys|] == p.keys;
    if p.isLeaf {
      assert p.values[..|p.keys|] == p.values;
    } else {
      assert p.children[..|p.keys|] + [p.children[|p.keys|]] == p.children;
    }
  }

  /** The page made of the first n entries. */
  ghost function Front(p: Page, n: nat): Page
    requires n <= |p.keys| && (if p.isLeaf then n <= |p.values| else n <= |p.children|)
  {
    Page(0, p.isLeaf, p.numKeys, p.nextLeaf, p.keys[..n],
         if p.isLeaf then p.values[..n] else [], if p.isLeaf then [] else p.children[..n])
  }

  lemma EntryRead(buf: Bytes, p: Page, i: nat, low: nat)
    requires i < |p.keys| && (if p.isLeaf then i < |p.values| else i < |p.children|) && EntryAt(buf, p, i, low)
    ensures SlotStart(i, p.isLeaf) + SlotSize(p.isLeaf) <= |buf|
    ensures WithSlot(buf, Front(p, i), SlotAt(buf, SlotStart(i, p.isLeaf), p.isLeaf), p.isLeaf) ==
      PageOk(Front(p, i + 1))
  {
    hide LEValue, SlotAt;
    assert p.keys[..i + 1] == p.keys[..i] + [p.keys[i]];
    if p.isLeaf {
      assert p.values[..i + 1] == p.values[..i] + [p.values[i]];
    } else {
      assert p.children[..i + 1] == p.children[..i] + [p.children[i]];
    }
  }

  lemma {:induction false} FirstEntries(buf: Bytes, p: Page, n: nat, low: nat)
    requires Entries(buf, p, n, low)
    ensures FirstSlots(buf, Page(0, p.isLeaf, p.numKeys, p.nextLeaf, [], [], []), n) == PageOk(Front(p, n))
  {
    hide LEValue, SlotAt, EntryAt, WithSlot;
    if n > 0 {
      FirstEntries(buf, p, n - 1, low);
      EntryRead(buf, p, n - 1, low);
    }
  }

  /* ---- encoding ---- */

  /** Fills one slot's table entry. */
  function SlotBytes(s: Slot, isLeaf: bool): (b: Bytes)
    ensures |b| == SlotSize(isLeaf)
  {
    LE(s.keyOff % TWO_16, 2) + LE(s.keyLen % TWO_16, 2) +
    if isLeaf then LE(s.valueOff % TWO_16, 2) + LE(s.valueLen % TWO_16, 2) else LE(s.childID % TWO_64, 8)
  }

  method Copy(buf: array<byte>, at: nat, part: Bytes)
    requires at + |part| <= buf.Length
    modifies buf
    ensures buf[..] == Written(old(buf[..]), at, part)
  {
    var i := 0;
    while i < |part|
      invariant i <= |part|
      invariant forall k :: 0 <= k < buf.Length ==> buf[k] == if at <= k < at + i then part[k - at] else old(buf[k])
    {
      buf[at + i] := part[i];
      i := i + 1;
    }
  }

  method PutSlot(s: Slot, buf: array<byte>, slotStart: nat, isLeaf: bool)
    requires slotStart + SlotSize(isLeaf) <= buf.Length
    modifies buf
    ensures buf[..] == Written(old(buf[..]), slotStart, SlotBytes(s, isLeaf))
  {
    hide LE, Written;
    ghost var was := buf[..];
    Copy(buf, slotStart, LE(s.keyOff % TWO_16, 2));
    Copy(buf, slotStart + 2, LE(s.keyLen % TWO_16, 2));
    WrittenTwice(was, slotStart, LE(s.keyOff % TWO_16, 2), LE(s.keyLen % TWO_16, 2));
    ghost var front := LE(s.keyOff % TWO_16, 2) + LE(s.keyLen % TWO_16, 2);
    if isLeaf {
      Copy(buf, slotStart + 4, LE(s.valueOff % TWO_16, 2));
      WrittenTwice(was, slotStart, front, LE(s.valueOff % TWO_16, 2));
      Copy(buf, slotStart + 6, LE(s.valueLen % TWO_16, 2));
      WrittenTwice(was, slotStart, front + LE(s.valueOff % TWO_16, 2), LE(s.valueLen % TWO_16, 2));
      assert SlotBytes(s, isLeaf) == front + LE(s.valueOff % TWO_16, 2) + LE(s.valueLen % TWO_16, 2);
    } else {
      Copy(buf, slotStart + 4, LE(s.childID % TWO_64, 8));
      WrittenTwice(was, slotStart, front, LE(s.childID % TWO_64, 8));
    }
  }

  /** Bytes of keys and values from entry i on. */
  function Remaining(p: Page, i: nat): (n: nat)
    requires i <= |p.keys| && (p.isLeaf ==> |p.values| == |p.keys|)
  {
    TotalLength(p.keys[i..]) + if p.isLeaf then TotalLength(p.values[i..]) else 0
  }

  function EntryLength(p: Page, i: nat): nat
    requires i < |p.keys| && (p.isLeaf ==> |p.values| == |p.keys|)
  {
    |p.keys[i]| + if p.isLeaf then |p.values[i]| else 0
  }

  lemma RemainingStep(p: Page, i: nat)
    requires i < |p.keys| && (p.isLeaf ==> |p.values| == |p.keys|)
    ensures Remaining(p, i) == EntryLength(p, i) + Remaining(p, i + 1)
    ensures SlotStart(i, p.isLeaf) + SlotSize(p.isLeaf) == SlotStart(i + 1, p.isLeaf) <= SlotTableEnd(p)
  {
    assert p.keys[i..][1..] == p.keys[i + 1..];
    if p.isLeaf {
      assert p.values[i..][1..] == p.values[i + 1..];
    }
  }

  /** Truncation to 16 bits undone: where data placed at dataEnd ends up. */
  function Gap(room: int): int {
    room - Top(room)
  }

  lemma OffsetInReach(room: int, dataEnd: int)
    requires 0 < room && 0 <= dataEnd - Gap(room) <= TWO_16
    ensures dataEnd - Gap(room) < TWO_16 ==> dataEnd % TWO_16 == dataEnd - Gap(room)
    ensures dataEnd - Gap(room) == TWO_16 ==> dataEnd % TWO_16 == 0
  {
  }

  /** The first i entries are written; what is left fits above the slot table. */
  ghost predicate Filling(buf: Bytes, p: Page, pageSize: nat, i: nat, dataEnd: int) {
    && Encodable(p) && Reaches(p, pageSize) && |buf| == Room(p.id, pageSize) && i <= |p.keys|
    && dataEnd - Remaining(p, i) == |buf| - DataLength(p)
    && dataEnd <= |buf|
    && HeaderIs(buf, p) && Entries(buf, p, i, dataEnd - Gap(|buf|))
  }

  /** One entry written by the encoder: its key, its value and its slot. */
  function WithEntry(buf: Bytes, p: Page, i: nat, dataEnd: nat): (r: Bytes)
    requires i < |p.keys| && (if p.isLeaf then |p.values| == |p.keys| else i < |p.children|)
    requires EntryLength(p, i) <= dataEnd
  {
    var keyOff := (dataEnd - |p.keys[i]|) % TWO_16;
    var b := Written(buf, keyOff, p.keys[i]);
    if p.isLeaf then
      var valueOff := (dataEnd - EntryLength(p, i)) % TWO_16;
      var s := Slot(keyOff, |p.keys[i]|, valueOff, |p.values[i]|, 0);
      Written(Written(b, valueOff, p.values[i]), SlotStart(i, true), SlotBytes(s, true))
    else
      Written(b, SlotStart(i, false), SlotBytes(Slot(keyOff, |p.keys[i]|, 0, 0, p.children[i]), false))
  }

  lemma PlacedKept(buf: Bytes, buf': Bytes, off: nat, len: nat, part: Bytes, low: nat, low': nat)
    requires Placed(buf, off, len, part, low) && low' <= low && |buf'| == |buf|
    requires forall k :: low <= k < |buf| ==> buf'[k] == buf[k]
    ensures Placed(buf', off, len, part, low')
  {
    if part != [] {
      assert buf'[off..off + len] == buf[off..off + len];
    }
  }

  lemma SlotKept(buf: Bytes, buf': Bytes, at: nat, isLeaf: bool)
    requires at + SlotSize(isLeaf) <= |buf| == |buf'|
    requires forall k :: at <= k < at + SlotSize(isLeaf) ==> buf'[k] == buf[k]
    ensures SlotAt(buf', at, isLeaf) == SlotAt(buf, at, isLeaf)
  {
    hide LEValue;
    assert buf'[at..at + 2] == buf[at..at + 2] && buf'[at + 2..at + 4] == buf[at + 2..at + 4];
    if isLeaf {
      assert buf'[at + 4..at + 6] == buf[at + 4..at + 6] && buf'[at + 6..at + 8] == buf[at + 6..at + 8];
    } else {
      assert buf'[at + 4..at + 12] == buf[at + 4..at + 12];
    }
  }

  lemma EntriesKept(buf: Bytes, buf': Bytes, p: Page, n: nat, low: nat, low': nat)
    requires Entries(buf, p, n, low) && low' <= low && |buf'| == |buf|
    requires forall k :: 0 <= k < |buf| && (k < SlotStart(n, p.isLeaf) || low <= k) ==> buf'[k] == buf[k]
    ensures Entries(buf', p, n, low')
  {
    hide SlotAt, Placed;
    forall i | 0 <= i < n
      ensures EntryAt(buf', p, i, low')
    {
      assert EntryAt(buf, p, i, low);
      var s := SlotAt(buf, SlotStart(i, p.isLeaf), p.isLeaf);
      SlotKept(buf, buf', SlotStart(i, p.isLeaf), p.isLeaf);
      PlacedKept(buf, buf', s.keyOff, s.keyLen, p.keys[i], low, low');
      if p.isLeaf {
        PlacedKept(buf, buf', s.valueOff, s.valueLen, p.values[i], low, low');
      }
    }
  }

  lemma SlotRead(buf: Bytes, at: nat, s: Slot, isLeaf: bool)
    requires at + SlotSize(isLeaf) <= |buf| && buf[at..at + SlotSize(isLeaf)] == SlotBytes(s, isLeaf)
    requires s.keyOff < TWO_16 && s.keyLen < TWO_16 && s.valueOff < TWO_16 && s.valueLen < TWO_16
    requires -TWO_63 <= s.childID < TWO_63
    requires if isLeaf then s.childID == 0 else s.valueOff == s.valueLen == 0
    ensures SlotAt(buf, at, isLeaf) == s
  {
    hide LE, LEValue, Pow256;
    Powers();
    var e := buf[at..at + SlotSize(isLeaf)];
    LERoundTrip(s.keyOff, 2);
    LERoundTrip(s.keyLen, 2);
    InnerSlice(buf, at, |e|, 0, 2);
    InnerSlice(buf, at, |e|, 2, 4);
    assert e[0..2] == LE(s.keyOff, 2) && e[2..4] == LE(s.keyLen, 2);
    if isLeaf {
      LERoundTrip(s.valueOff, 2);
      LERoundTrip(s.valueLen, 2);
      InnerSlice(buf, at, 8, 4, 6);
      InnerSlice(buf, at, 8, 6, 8);
      var second := LE(s.valueOff, 2) + LE(s.valueLen, 2);
      assert e[4..8] == second && e[4..8][0..2] == second[0..2] && e[4..8][2..4] == second[2..4];
      assert e[4..6] == LE(s.valueOff, 2) && e[6..8] == LE(s.valueLen, 2);
    } else {
      LERoundTrip(s.childID % TWO_64, 8);
      InnerSlice(buf, at, 12, 4, 12);
      assert e[4..12] == LE(s.childID % TWO_64, 8);
    }
  }

  /** A part written in reach lands where its slot says. */
  lemma PartWritten(buf: Bytes, off: nat, part: Bytes, low: nat)
    requires off + |part| <= |buf| && (part == [] || low == off)
    ensures var buf' := Written(buf, off, part);
      |buf'| == |buf| && Placed(buf', off, |part|, part, low) &&
      forall k :: 0 <= k < |buf| && (k < low || low + |part| <= k) ==> buf'[k] == buf[k]
  {
    WrittenThere(buf, off, part);
  }

  lemma EntryDone(buf: Bytes, data: Bytes, buf': Bytes, p: Page, i: nat, low: nat, low': nat, s: Slot)
    requires Entries(buf, p, i, low) && i < |p.keys| && (if p.isLeaf then i < |p.values| else i < |p.children|)
    requires SlotTableEnd(p) <= low' <= low && low' <= |buf| == |data|
    requires forall k :: 0 <= k < |buf| && (k < low' || low <= k) ==> data[k] == buf[k]
    requires Placed(data, s.keyOff, s.keyLen, p.keys[i], low')
    requires p.isLeaf ==> Placed(data, s.valueOff, s.valueLen, p.values[i], low') && s.childID == 0
    requires !p.isLeaf ==> s.childID == p.children[i] && s.valueOff == s.valueLen == 0
    requires s.keyOff < TWO_16 && s.keyLen < TWO_16 && s.valueOff < TWO_16 && s.valueLen < TWO_16
    requires -TWO_63 <= s.childID < TWO_63
    requires buf' == Written(data, SlotStart(i, p.isLeaf), SlotBytes(s, p.isLeaf))
    ensures Entries(buf', p, i + 1, low')
    ensures |buf'| == |buf| && forall k :: 0 <= k < HEADER_SIZE ==> buf'[k] == buf[k]
  {
    hide SlotAt, Placed, SlotBytes, Written;
    var at := SlotStart(i, p.isLeaf);
    assert at + SlotSize(p.isLeaf) <= SlotTableEnd(p);
    WrittenThere(data, at, SlotBytes(s, p.isLeaf));
    SlotRead(buf', at, s, p.isLeaf);
    PlacedKept(data, buf', s.keyOff, s.keyLen, p.keys[i], low', low');
    if p.isLeaf {
      PlacedKept(data, buf', s.valueOff, s.valueLen, p.values[i], low', low');
    }
    EntriesKept(buf, buf', p, i, low, low');
  }

  lemma HeaderKept(buf: Bytes, buf': Bytes, p: Page)
    requires HEADER_SIZE <= |buf| == |buf'| && HeaderIs(buf, p)
    requires forall k :: 0 <= k < HEADER_SIZE ==> buf'[k] == buf[k]
    ensures HeaderIs(buf', p)
  {
    hide LEValue;
    assert buf'[0..4] == buf[0..4] && buf'[5..7] == buf[5..7] && buf'[7..15] == buf[7..15];
  }

  lemma FillStep(buf: Bytes, p: Page, pageSize: nat, i: nat, dataEnd: nat)
    requires Filling(buf, p, pageSize, i, dataEnd) && i < |p.keys|
    ensures EntryLength(p, i) <= dataEnd
    ensures Filling(WithEntry(buf, p, i, dataEnd), p, pageSize, i + 1, dataEnd - EntryLength(p, i))
  {
    hide HeaderIs, Entries, WithEntry, TotalLength, Gap, Top;
    RemainingStep(p, i);
    StepNumbers(p, pageSize, i, dataEnd);
    if p.isLeaf {
      LeafStep(buf, p, i, dataEnd, dataEnd - Gap(|buf|));
    } else {
      InternalStep(buf, p, i, dataEnd, dataEnd - Gap(|buf|));
    }
    HeaderKept(buf, WithEntry(buf, p, i, dataEnd), p);
  }

  /** The offset a part gets is where its data goes, and nothing is in the way. */
  ghost predicate InReach(p: Page, dataEnd: int, low: int, part: Bytes) {
    && 0 <= SlotTableEnd(p) <= low && |part| <= dataEnd && low <= dataEnd
    && low + |part| <= TWO_16 && |part| < TWO_16
    && (part != [] ==> (dataEnd - |part|) % TWO_16 == low)
    && (dataEnd - |part|) % TWO_16 <= low
  }

  lemma TableAboveHeader(p: Page)
    ensures HEADER_SIZE <= SlotTableEnd(p)
  {
  }

  lemma StepNumbers(p: Page, pageSize: nat, i: nat, dataEnd: nat)
    requires Encodable(p) && Reaches(p, pageSize) && i < |p.keys| && dataEnd <= Room(p.id, pageSize)
    requires dataEnd - Remaining(p, i) == Room(p.id, pageSize) - DataLength(p)
    ensures EntryLength(p, i) <= dataEnd && Gap(Room(p.id, pageSize)) <= dataEnd
    ensures var low := dataEnd - Gap(Room(p.id, pageSize));
      && InReach(p, dataEnd, low - |p.keys[i]|, p.keys[i])
      && (p.isLeaf ==> InReach(p, dataEnd - |p.keys[i]|, low - EntryLength(p, i), p.values[i]))
      && SlotTableEnd(p) <= low - EntryLength(p, i)
  {
    hide TotalLength, Gap, Top, Fits, SlotTableEnd;
    RemainingStep(p, i);
    GapFits(p, pageSize);
    TableAboveHeader(p);
    var room := Room(p.id, pageSize);
    OffsetInReach(room, dataEnd - |p.keys[i]|);
    if p.isLeaf {
      OffsetInReach(room, dataEnd - EntryLength(p, i));
    }
  }

  lemma TwoParts(buf: Bytes, off: nat, part: Bytes, low: nat, off': nat, part': Bytes, low': nat)
    requires off + |part| <= |buf| && (part == [] || low == off)
    requires off' + |part'| <= |buf| && (part' == [] || low' == off') && low' + |part'| == low
    ensures var data := Written(Written(buf, off, part), off', part');
      && |data| == |buf| && Placed(data, off, |part|, part, low') && Placed(data, off', |part'|, part', low')
      && forall k :: 0 <= k < |buf| && (k < low' || low + |part| <= k) ==> data[k] == buf[k]
  {
    hide Placed, Written;
    PartWritten(buf, off, part, low);
    PartWritten(Written(buf, off, part), off', part', low');
    PlacedKept(Written(buf, off, part), Written(Written(buf, off, part), off', part'), off, |part|, part, low, low');
  }

  /** Where a part in reach goes is inside the buffer, and its offset fits. */
  lemma PartReached(p: Page, dataEnd: int, low: int, part: Bytes, size: nat)
    requires InReach(p, dataEnd, low, part) && dataEnd <= size
    ensures var off := (dataEnd - |part|) % TWO_16;
      off + |part| <= size && (part == [] || low == off) && 0 <= SlotTableEnd(p) <= low && |part| < TWO_16
  {
    hide SlotTableEnd;
  }

  lemma LeafEntryIs(buf: Bytes, p: Page, i: nat, dataEnd: nat)
    requires p.isLeaf && i < |p.keys| == |p.values| && EntryLength(p, i) <= dataEnd
    ensures var keyOff, valueOff := (dataEnd - |p.keys[i]|) % TWO_16, (dataEnd - EntryLength(p, i)) % TWO_16;
      var s := Slot(keyOff, |p.keys[i]|, valueOff, |p.values[i]|, 0);
      WithEntry(buf, p, i, dataEnd) ==
      Written(Written(Written(buf, keyOff, p.keys[i]), valueOff, p.values[i]), SlotStart(i, true), SlotBytes(s, true))
  {
    hide SlotBytes, Written, SlotStart;
  }

  lemma LeafStep(buf: Bytes, p: Page, i: nat, dataEnd: nat, low: nat)
    requires Encodable(p) && p.isLeaf && i < |p.keys| && Entries(buf, p, i, low)
    requires EntryLength(p, i) <= low <= dataEnd <= |buf|
    requires InReach(p, dataEnd, low - |p.keys[i]|, p.keys[i])
    requires InReach(p, dataEnd - |p.keys[i]|, low - EntryLength(p, i), p.values[i])
    ensures |WithEntry(buf, p, i, dataEnd)| == |buf|
    ensures Entries(WithEntry(buf, p, i, dataEnd), p, i + 1, low - EntryLength(p, i))
    ensures forall k :: 0 <= k < HEADER_SIZE ==> WithEntry(buf, p, i, dataEnd)[k] == buf[k]
  {
    hide Entries, Placed, SlotBytes, Written, SlotTableEnd, InReach, WithEntry, SlotStart;
    LeafEntryIs(buf, p, i, dataEnd);
    var low1, low2 := low - |p.keys[i]|, low - EntryLength(p, i);
    PartReached(p, dataEnd, low1, p.keys[i], |buf|);
    PartReached(p, dataEnd - |p.keys[i]|, low2, p.values[i], |buf|);
    var keyOff, valueOff := (dataEnd - |p.keys[i]|) % TWO_16, (dataEnd - EntryLength(p, i)) % TWO_16;
    TwoParts(buf, keyOff, p.keys[i], low1, valueOff, p.values[i], low2);
    var b2 := Written(Written(buf, keyOff, p.keys[i]), valueOff, p.values[i]);
    EntryDone(buf, b2, WithEntry(buf, p, i, dataEnd), p, i, low, low2,
              Slot(keyOff, |p.keys[i]|, valueOff, |p.values[i]|, 0));
  }

  lemma InternalStep(buf: Bytes, p: Page, i: nat, dataEnd: nat, low: nat)
    requires Encodable(p) && !p.isLeaf && i < |p.keys| && Entries(buf, p, i, low)
    requires EntryLength(p, i) <= low <= dataEnd <= |buf|
    requires InReach(p, dataEnd, low - |p.keys[i]|, p.keys[i])
    ensures |WithEntry(buf, p, i, dataEnd)| == |buf|
    ensures Entries(WithEntry(buf, p, i, dataEnd), p, i + 1, low - EntryLength(p, i))
    ensures forall k :: 0 <= k < HEADER_SIZE ==> WithEntry(buf, p, i, dataEnd)[k] == buf[k]
  {
    hide Entries, Placed, SlotBytes, Written, SlotTableEnd;
    var keyOff := (dataEnd - |p.keys[i]|) % TWO_16;
    PartWritten(buf, keyOff, p.keys[i], low - |p.keys[i]|);
    ChildInRange(p, i);
    EntryDone(buf, Written(buf, keyOff, p.keys[i]), WithEntry(buf, p, i, dataEnd), p, i, low, low - |p.keys[i]|,
              Slot(keyOff, |p.keys[i]|, 0, 0, p.children[i]));
  }

  lemma ChildInRange(p: Page, i: nat)
    requires Encodable(p) && !p.isLeaf && i < |p.children|
    ensures -TWO_63 <= p.children[i] < TWO_63
  {
    var c := p.children[i];
    assert c in p.children;
  }

  lemma GapFits(p: Page, pageSize: nat)
    requires Reaches(p, pageSize)
    ensures 0 < Room(p.id, pageSize) && 0 <= Gap(Room(p.id, pageSize)) && Gap(Room(p.id, pageSize)) % TWO_16 == 0
    ensures Room(p.id, pageSize) == Top(Room(p.id, pageSize)) + Gap(Room(p.id, pageSize))
    ensures Top(Room(p.id, pageSize)) <= TWO_16
    ensures Fits(p, pageSize)
  {
  }

  /* ---- the encoder ---- */

  /** The header fields of an otherwise blank buffer. */
  method PutHeader(p: Page, buf: array<byte>)
    requires HEADER_SIZE <= buf.Length && forall k :: 0 <= k < buf.Length ==> buf[k] == 0
    modifies buf
    ensures Encodable(p) ==> HeaderIs(buf[..], p)
  {
    hide LE, LEValue, Written, Encodable, HeaderIs;
    ghost var b0 := buf[..];
    Copy(buf, 0, LE(if p.isLeaf then MAGIC_LEAF else MAGIC_INTERNAL, 4));
    ghost var b1 := buf[..];
    if p.isLeaf {
      Copy(buf, 4, [1]);
    }
    ghost var b2 := buf[..];
    Copy(buf, 5, LE(p.numKeys % TWO_16, 2));
    ghost var b3 := buf[..];
    Copy(buf, 7, LE(p.nextLeaf % TWO_64, 8));
    if Encodable(p) {
      HeaderWritten(b0, b1, b2, b3, buf[..], p);
    }
  }

  lemma HeaderWritten(b0: Bytes, b1: Bytes, b2: Bytes, b3: Bytes, b4: Bytes, p: Page)
    requires HEADER_SIZE <= |b0| && b0[4] == 0 && Encodable(p)
    requires b1 == Written(b0, 0, LE(if p.isLeaf then MAGIC_LEAF else MAGIC_INTERNAL, 4))
    requires b2 == if p.isLeaf then Written(b1, 4, [1]) else b1
    requires b3 == Written(b2, 5, LE(p.numKeys % TWO_16, 2))
    requires b4 == Written(b3, 7, LE(p.nextLeaf % TWO_64, 8))
    ensures HeaderIs(b4, p)
  {
    hide LE, LEValue, Pow256;
    var magic := if p.isLeaf then MAGIC_LEAF else MAGIC_INTERNAL;
    FieldsPlaced(b0, b1, b2, b3, b4, LE(magic, 4), p.isLeaf, LE(p.numKeys % TWO_16, 2), LE(p.nextLeaf % TWO_64, 8));
    Powers();
    LERoundTrip(magic, 4);
    LERoundTrip(p.numKeys, 2);
    LERoundTrip(p.nextLeaf % TWO_64, 8);
  }

  /** Header fields lie side by side. */
  lemma FieldsPlaced(b0: Bytes, b1: Bytes, b2: Bytes, b3: Bytes, b4: Bytes, magic: Bytes, leaf: bool, num: Bytes,
                     next: Bytes)
    requires HEADER_SIZE <= |b0| && b0[4] == 0 && |magic| == 4 && |num| == 2 && |next| == 8
    requires b1 == Written(b0, 0, magic) && b2 == (if leaf then Written(b1, 4, [1]) else b1)
    requires b3 == Written(b2, 5, num) && b4 == Written(b3, 7, next)
    ensures |b4| == |b0| && b4[0..4] == magic && b4[5..7] == num && b4[7..15] == next && (b4[4] == 1 <==> leaf)
  {
    assert b4[0..4] == magic;
    assert b4[5..7] == num;
    assert b4[7..15] == next;
  }

  /** Writes entry i with its data just below dataEnd. */
  method PutEntry(p: Page, i: nat, dataEnd: nat, buf: array<byte>) returns (newEnd: nat)
    requires i < |p.keys| && (if p.isLeaf then |p.values| == |p.keys| else i < |p.children|)
    requires EntryLength(p, i) <= dataEnd <= buf.Length && SlotTableEnd(p) <= buf.Length
    modifies buf
    ensures buf[..] == WithEntry(old(buf[..]), p, i, dataEnd)
    ensures newEnd == dataEnd - EntryLength(p, i)
  {
    hide SlotBytes, Written;
    RemainingStep(p, i);
    newEnd := dataEnd - |p.keys[i]|;
    var keyOff := newEnd % TWO_16;
    Copy(buf, keyOff, p.keys[i]);
    var s := Slot(keyOff, |p.keys[i]|, 0, 0, 0);
    if p.isLeaf {
      newEnd := newEnd - |p.values[i]|;
      var valueOff := newEnd % TWO_16;
      s := s.(valueOff := valueOff, valueLen := |p.values[i]|);
      Copy(buf, valueOff, p.values[i]);
    } else {
      s := s.(childID := p.children[i]);
    }
    PutSlot(s, buf, SlotStart(i, p.isLeaf), p.isLeaf);
  }

  method TotalData(p: Page) returns (totalData: nat)
    requires p.isLeaf ==> |p.values| == |p.keys|
    ensures totalData == DataLength(p)
  {
    hide TotalLength;
    totalData := 0;
    var i := 0;
    assert p.keys[0..] == p.keys && p.values[0..] == p.values;
    while i < |p.keys|
      invariant i <= |p.keys| && totalData + Remaining(p, i) == DataLength(p)
    {
      RemainingStep(p, i);
      totalData := totalData + |p.keys[i]|;
      if p.isLeaf {
        totalData := totalData + |p.values[i]|;
      }
      i := i + 1;
    }
    NothingRemains(p);
  }

  lemma NothingRemains(p: Page)
    requires p.isLeaf ==> |p.values| == |p.keys|
    ensures Remaining(p, |p.keys|) == 0 && Remaining(p, 0) == DataLength(p)
  {
    assert p.keys[0..] == p.keys && p.values[0..] == p.values;
  }

  /** Fills a page-sized buffer, or refuses a page that does not fit. Decoding
      the buffer gives the page back whenever its data is in reach of the 16-bit
      offsets, which on a page of at most 65536 bytes is always. */
  method Encode(p: Page, pageSize: nat) returns (ok: bool, buf: array<byte>)
    requires if p.isLeaf then |p.values| == |p.keys| else |p.keys| <= |p.children|
    ensures ok <==> Fits(p, pageSize)
    ensures ok ==> fresh(buf) && buf.Length == Room(p.id, pageSize)
    ensures ok && Encodable(p) && Reaches(p, pageSize) ==> Holds(buf[..], p) && Decoded(buf[..]) == PageOk(p.(id := 0))
  {
    hide Encodable, Reaches, Filling, Holds, Decoded, HeaderIs, WithEntry, TotalLength;
    buf := new byte[0];
    var room := Room(p.id, pageSize);
    var slotTableEnd := SlotTableEnd(p);
    var totalData := TotalData(p);
    if slotTableEnd + totalData > room {
      return false, buf;
    }
    buf := new byte[room](_ => 0);
    PutHeader(p, buf);
    var dataEnd: nat := room;
    var i := 0;
    NothingRemains(p);
    StartsFilling(buf[..], p, pageSize);
    while i < |p.keys|
      invariant i <= |p.keys| && dataEnd <= room == buf.Length && fresh(buf)
      invariant dataEnd - Remaining(p, i) == room - DataLength(p)
      invariant Encodable(p) && Reaches(p, pageSize) ==> Filling(buf[..], p, pageSize, i, dataEnd)
    {
      RemainingStep(p, i);
      ghost var was := buf[..];
      ghost var end := dataEnd;
      dataEnd := PutEntry(p, i, dataEnd, buf);
      if Encodable(p) && Reaches(p, pageSize) {
        FillStep(was, p, pageSize, i, end);
      }
      i := i + 1;
    }
    ghost var filled := buf[..];
    if !p.isLeaf && |p.children| > |p.keys| {
      Copy(buf, SlotStart(|p.keys|, false) + 4, LE(p.children[|p.children| - 1] % TWO_64, 8));
    }
    ok := true;
    if Encodable(p) && Reaches(p, pageSize) {
      OneChildMore(p);
      Filled(filled, buf[..], p, pageSize, dataEnd);
      HoldsDecodes(buf[..], p);
    }
  }

  lemma StartsFilling(buf: Bytes, p: Page, pageSize: nat)
    requires p.isLeaf ==> |p.values| == |p.keys|
    requires HEADER_SIZE <= |buf| == Room(p.id, pageSize) && (Encodable(p) ==> HeaderIs(buf, p))
    ensures Encodable(p) && Reaches(p, pageSize) ==> Filling(buf, p, pageSize, 0, |buf|)
  {
    hide HeaderIs;
    NothingRemains(p);
    if Reaches(p, pageSize) {
      GapFits(p, pageSize);
    }
  }

  lemma OneChildMore(p: Page)
    requires Encodable(p)
    ensures !p.isLeaf ==> |p.children| == |p.keys| + 1
  {
  }

  lemma Filled(buf: Bytes, buf': Bytes, p: Page, pageSize: nat, dataEnd: nat)
    requires Filling(buf, p, pageSize, |p.keys|, dataEnd)
    requires buf' == if p.isLeaf then buf
      else Written(buf, SlotStart(|p.keys|, false) + 4, LE(p.children[|p.children| - 1] % TWO_64, 8))
    ensures Holds(buf', p)
  {
    hide HeaderIs, Entries, LEValue, Top, Gap, TotalLength, LE, SlotAt;
    NothingRemains(p);
    GapFits(p, pageSize);
    var at := SlotStart(|p.keys|, p.isLeaf);
    TableEnds(p);
    if !p.isLeaf {
      LastChildRead(buf, buf', at, p.children[|p.keys|], p);
    }
    EntriesKept(buf, buf', p, |p.keys|, dataEnd - Gap(|buf|), SlotTableEnd(p));
    HeaderKept(buf, buf', p);
  }

  lemma TableEnds(p: Page)
    ensures HEADER_SIZE <= SlotStart(|p.keys|, p.isLeaf) <= SlotTableEnd(p)
    ensures !p.isLeaf ==> SlotStart(|p.keys|, false) + INTERNAL_SLOT_SIZE == SlotTableEnd(p)
  {
  }

  lemma LastChildRead(buf: Bytes, buf': Bytes, at: nat, child: PageID, p: Page)
    requires Encodable(p) && !p.isLeaf && child == p.children[|p.keys|]
    requires at + INTERNAL_SLOT_SIZE <= |buf| && buf' == Written(buf, at + 4, LE(child % TWO_64, 8))
    ensures |buf'| == |buf| && SlotAt(buf', at, false).childID == child
    ensures forall k :: 0 <= k < |buf| && (k < at || at + INTERNAL_SLOT_SIZE <= k) ==> buf'[k] == buf[k]
  {
    hide LE, LEValue, Pow256;
    Powers();
    ChildInRange(p, |p.keys|);
    LERoundTrip(child % TWO_64, 8);
    assert buf'[at + 4..at + 12] == LE(child % TWO_64, 8);
  }

  /* ---- how far the page size can be trusted ---- */

  /** Up to 65536 bytes a page is in reach exactly when it fits. */
  lemma SmallPagesReach(p: Page, pageSize: nat)
    requires pageSize <= TWO_16
    ensures Reaches(p, pageSize) <==> Fits(p, pageSize)
  {
  }

  /** On larger pages the encoder accepts keys and values that no buffer
      decodes to: lengths are stored in 16 bits. */
  lemma LongPartsLost(buf: Bytes, p: Page)
    requires HEADER_FIELDS <= |buf| && (exists k :: (k in p.keys || k in p.values) && |k| >= TWO_16)
    ensures Decoded(buf) != PageOk(p)
  {
    hide LEValue, FirstSlots;
    if Decoded(buf).PageOk? {
      var n := LEValue(buf[5..7]);
      ShortParts(buf, Page(0, buf[4] == 1, n, ToInt64(LEValue(buf[7..15])), [], [], []), n);
    }
  }

  lemma {:induction false} ShortParts(buf: Bytes, p: Page, n: nat)
    requires p.keys == [] && p.values == [] && FirstSlots(buf, p, n).PageOk?
    ensures forall k :: k in FirstSlots(buf, p, n).page.keys || k in FirstSlots(buf, p, n).page.values ==> |k| < TWO_16
  {
    hide LEValue, Pow256;
    if n > 0 {
      ShortParts(buf, p, n - 1);
      var at := SlotStart(n - 1, p.isLeaf);
      Powers();
      LEBound(buf[at + 2..at + 4]);
      if p.isLeaf {
        LEBound(buf[at + 6..at + 8]);
      }
    }
  }

  /* ---- which bytes these are ---- */

  /** A page starts with LEAF or INTE as a number, whether it is a leaf, how many
      keys it has and the leaf after it. */
  lemma HeaderLayout(buf: Bytes, p: Page)
    requires Encodable(p) && Holds(buf, p)
    ensures 15 <= |buf|
    ensures LEValue(buf[0..4]) == (if p.isLeaf then 0x4C45_4146 else 0x494E_5445) && (buf[4] == 1 <==> p.isLeaf)
    ensures LEValue(buf[5..7]) == |p.keys| && ToInt64(LEValue(buf[7..15])) == p.nextLeaf
  {
    hide LEValue;
  }

  /** Slot i of a leaf has eight bytes from 32 + 8 i on: where its key is and how
      long, and the same of its value. */
  lemma LeafSlotLayout(buf: Bytes, p: Page, i: nat)
    requires Encodable(p) && Holds(buf, p) && p.isLeaf && i < |p.keys|
    ensures var at := 32 + 8 * i;
      && at + 8 <= |buf|
      && var key, value := LEValue(buf[at..at + 2]), LEValue(buf[at + 4..at + 6]);
      && LEValue(buf[at + 2..at + 4]) == |p.keys[i]| && LEValue(buf[at + 6..at + 8]) == |p.values[i]|
      && key + |p.keys[i]| <= |buf| && buf[key..key + |p.keys[i]|] == p.keys[i]
      && value + |p.values[i]| <= |buf| && buf[value..value + |p.values[i]|] == p.values[i]
  {
    hide LEValue;
    assert EntryAt(buf, p, i, SlotTableEnd(p));
  }

  /** Slot i of an internal page has twelve bytes from 32 + 12 i on: its key's place
      and length and its child; the last child has a slot without a key. */
  lemma InternalSlotLayout(buf: Bytes, p: Page, i: nat)
    requires Encodable(p) && Holds(buf, p) && !p.isLeaf && i <= |p.keys|
    ensures var at := 32 + 12 * i;
      && at + 12 <= |buf|
      && ToInt64(LEValue(buf[at + 4..at + 12])) == p.children[i]
      && (i < |p.keys| ==>
            var key := LEValue(buf[at..at + 2]);
            && LEValue(buf[at + 2..at + 4]) == |p.keys[i]|
            && key + |p.keys[i]| <= |buf| && buf[key..key + |p.keys[i]|] == p.keys[i])
  {
    hide LEValue;
    if i < |p.keys| {
      assert EntryAt(buf, p, i, SlotTableEnd(p));
    }
  }

  /** Slot i and what it points to lie inside the buffer. */
  predicate SlotInside(buf: Bytes, i: nat, isLeaf: bool) {
    var at := 32 + (if isLeaf then 8 else 12) * i;
    && at + (if isLeaf then 8 else 12) <= |buf|
    && LEValue(buf[at..at + 2]) + LEValue(buf[at + 2..at + 4]) <= |buf|
    && (isLeaf ==> LEValue(buf[at + 4..at + 6]) + LEValue(buf[at + 6..at + 8]) <= |buf|)
  }

  /** A buffer is a page exactly if it starts with one of the two numbers and all
      slots, and what they point to, lie inside it; it is an empty one exactly if it
      starts with zero. */
  lemma DecodesExactly(buf: Bytes)
    requires 15 <= |buf|
    ensures var magic, n, isLeaf := LEValue(buf[0..4]), LEValue(buf[5..7]), buf[4] == 1;
      && (Decoded(buf).EmptyPage? <==> magic == 0)
      && (Decoded(buf).PageOk? <==>
            && (magic == 0x4C45_4146 || magic == 0x494E_5445)
            && (forall i :: 0 <= i < n ==> SlotInside(buf, i, isLeaf))
            && (!isLeaf ==> 32 + 12 * n + 12 <= |buf|))
  {
    hide LEValue, FirstSlots, SlotInside;
    var n := LEValue(buf[5..7]);
    var p := Page(0, buf[4] == 1, n, ToInt64(LEValue(buf[7..15])), [], [], []);
    SlotsRead(buf, p, n);
  }

  lemma OneSlot(buf: Bytes, p: Page, i: nat)
    ensures SlotInside(buf, i, p.isLeaf) <==>
      && SlotStart(i, p.isLeaf) + SlotSize(p.isLeaf) <= |buf|
      && WithSlot(buf, p, SlotAt(buf, SlotStart(i, p.isLeaf), p.isLeaf), p.isLeaf).PageOk?
    ensures SlotStart(i, p.isLeaf) + SlotSize(p.isLeaf) <= |buf| ==>
      !WithSlot(buf, p, SlotAt(buf, SlotStart(i, p.isLeaf), p.isLeaf), p.isLeaf).EmptyPage?
  {
    hide LEValue;
  }

  lemma {:induction false} SlotsRead(buf: Bytes, p: Page, n: nat)
    requires p.keys == [] && p.values == [] && p.children == []
    ensures FirstSlots(buf, p, n).PageOk? <==> forall i :: 0 <= i < n ==> SlotInside(buf, i, p.isLeaf)
    ensures !FirstSlots(buf, p, n).EmptyPage?
    ensures FirstSlots(buf, p, n).PageOk? ==>
      var q := FirstSlots(buf, p, n).page;
      && q == p.(keys := q.keys, values := q.values, children := q.children)
      && |q.keys| == n && |q.values| == (if p.isLeaf then n else 0) && |q.children| == (if p.isLeaf then 0 else n)
      && forall i :: 0 <= i < n ==> ReadAt(buf, q, i)
  {
    hide LEValue, SlotInside, WithSlot, SlotAt, ReadAt;
    if n > 0 {
      SlotsRead(buf, p, n - 1);
      if FirstSlots(buf, p, n - 1).PageOk? {
        var q := FirstSlots(buf, p, n - 1).page;
        OneSlot(buf, q, n - 1);
        if FirstSlots(buf, p, n).PageOk? {
          OneMoreRead(buf, q, n - 1);
        }
      }
    }
  }

  /** Entry i of the page is what slot i points to. */
  ghost predicate ReadAt(buf: Bytes, p: Page, i: nat) {
    var at := 32 + (if p.isLeaf then 8 else 12) * i;
    && at + (if p.isLeaf then 8 else 12) <= |buf| && i < |p.keys|
    && var key, len := LEValue(buf[at..at + 2]), LEValue(buf[at + 2..at + 4]);
    && key + len <= |buf| && p.keys[i] == buf[key..key + len]
    && if p.isLeaf then
         var value, len' := LEValue(buf[at + 4..at + 6]), LEValue(buf[at + 6..at + 8]);
         i < |p.values| && value + len' <= |buf| && p.values[i] == buf[value..value + len']
       else i < |p.children| && p.children[i] == ToInt64(LEValue(buf[at + 4..at + 12]))
  }

  lemma OneMoreRead(buf: Bytes, q: Page, i: nat)
    requires |q.keys| == i && |q.values| == (if q.isLeaf then i else 0) && |q.children| == (if q.isLeaf then 0 else i)
    requires SlotStart(i, q.isLeaf) + SlotSize(q.isLeaf) <= |buf|
    requires WithSlot(buf, q, SlotAt(buf, SlotStart(i, q.isLeaf), q.isLeaf), q.isLeaf).PageOk?
    ensures var q' := WithSlot(buf, q, SlotAt(buf, SlotStart(i, q.isLeaf), q.isLeaf), q.isLeaf).page;
      && q' == q.(keys := q'.keys, values := q'.values, children := q'.children)
      && |q'.keys| == i + 1 && |q'.values| == (if q.isLeaf then i + 1 else 0)
      && |q'.children| == (if q.isLeaf then 0 else i + 1)
      && ReadAt(buf, q', i) && forall k: nat :: ReadAt(buf, q, k) ==> ReadAt(buf, q', k)
  {
    hide LEValue;
  }

  /** What a buffer that is a page decodes to, byte by byte. */
  lemma DecodedFromBytes(buf: Bytes)
    requires 15 <= |buf| && Decoded(buf).PageOk?
    ensures var p, n := Decoded(buf).page, LEValue(buf[5..7]);
      && (p.isLeaf <==> buf[4] == 1) && p.nextLeaf == ToInt64(LEValue(buf[7..15]))
      && p.numKeys == |p.keys| == n && |p.values| == (if p.isLeaf then n else 0)
      && |p.children| == (if p.isLeaf then 0 else n + 1)
      && (forall i :: 0 <= i < n ==> ReadAt(buf, p, i))
      && (!p.isLeaf ==>
            && 32 + 12 * n + 12 <= |buf|
            && p.children[n] == ToInt64(LEValue(buf[32 + 12 * n + 4..32 + 12 * n + 12])))
  {
    hide LEValue, FirstSlots, ReadAt;
    var n := LEValue(buf[5..7]);
    var p := Page(0, buf[4] == 1, n, ToInt64(LEValue(buf[7..15])), [], [], []);
    SlotsRead(buf, p, n);
    var q, r := FirstSlots(buf, p, n).page, Decoded(buf).page;
    forall i | 0 <= i < n
      ensures ReadAt(buf, r, i)
    {
      SameEntry(buf, q, r, i);
    }
  }

  lemma SameEntry(buf: Bytes, q: Page, r: Page, i: nat)
    requires ReadAt(buf, q, i) && r.isLeaf == q.isLeaf && r.keys == q.keys && r.values == q.values
    requires |q.children| <= |r.children| && r.children[..|q.children|] == q.children
    ensures ReadAt(buf, r, i)
  {
    hide LEValue;
    if !q.isLeaf {
      assert r.children[i] == r.children[..|q.children|][i];
    }
  }
}

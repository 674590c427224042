/** The write-ahead log as bytes: fixed-size frames, one per slot. */
module WalLog {
  import opened Bytes
  import opened Files
  import opened Metadata

  type BlockID = int

  const FRAME_HEADER: nat := 24

  datatype Block = Block(id: BlockID, buf: Bytes)

  datatype Frame = Frame(id: BlockID, marker: nat, sum: nat, payload: Bytes)

  /** Start of item j among items of one size. */
  function Off(j: nat, size: nat): nat {
    if j == 0 then 0 else Off(j - 1, size) + size
  }

  lemma {:induction false} OffMono(i: nat, j: nat, size: nat)
    requires i < j
    ensures Off(i, size) + size <= Off(j, size)
  {
    if i + 1 < j {
      OffMono(i, j - 1, size);
    }
  }

  lemma {:induction false} OffTimes(j: nat, size: nat)
    ensures Off(j, size) == j * size
  {
    if j > 0 {
      OffTimes(j - 1, size);
      assert j * size == (j - 1) * size + size;
    }
  }

  function FrameSize(bs: nat): nat { FRAME_HEADER + bs }

  predicate Full(wal: Bytes, bs: nat, j: nat) {
    Off(j, FrameSize(bs)) + FrameSize(bs) <= |wal|
  }

  function HeaderBytes(id: BlockID, marker: nat, sum: nat): (h: Bytes)
    ensures |h| == FRAME_HEADER
  {
    BE(id % TWO_64, 8) + BE(marker, 8) + BE(sum, 8)
  }

  /** What recovery reads in slot j. */
  function FrameAt(wal: Bytes, bs: nat, j: nat): Frame
    requires Full(wal, bs, j)
  {
    FrameOf(wal[Off(j, FrameSize(bs))..Off(j, FrameSize(bs)) + FrameSize(bs)])
  }

  function FrameOf(slot: Bytes): Frame
    requires FRAME_HEADER <= |slot|
  {
    Frame(ToInt64(BEValue(slot[0..8])), BEValue(slot[8..16]), BEValue(slot[16..24]) % TWO_32, slot[24..])
  }

  predicate Intact(f: Frame, crc: Checksum) {
    crc(f.payload) == f.sum
  }

  lemma FrameOfBytes(id: BlockID, marker: nat, sum: nat, payload: Bytes)
    requires 0 <= id < TWO_63 && marker < TWO_64 && sum < TWO_32
    ensures FrameOf(HeaderBytes(id, marker, sum) + payload) == Frame(id, marker, sum, payload)
  {
    hide BE, BEValue, Pow256;
    var slot := HeaderBytes(id, marker, sum) + payload;
    Powers();
    BERoundTrip(id, 8);
    BERoundTrip(marker, 8);
    BERoundTrip(sum, 8);
    assert slot[0..8] == BE(id, 8) && slot[8..16] == BE(marker, 8) && slot[16..24] == BE(sum,
        8) && slot[24..] == payload;
  }

  /** Writing inside slot j leaves every other slot alone. */
  lemma OtherSlots(wal: Bytes, bs: nat, j: nat, at: nat, buf: Bytes, i: nat)
    requires Off(j, FrameSize(bs)) <= |wal| && i != j
    requires Off(j, FrameSize(bs)) <= at && at + |buf| <= Off(j, FrameSize(bs)) + FrameSize(bs)
    ensures Full(Written(wal, at, buf), bs, i) <==> Full(wal, bs, i)
    ensures Full(wal, bs, i) ==> FrameAt(Written(wal, at, buf), bs, i) == FrameAt(wal, bs, i)
  {
    var fs := FrameSize(bs);
    if i < j {
      OffMono(i, j, fs);
    } else {
      OffMono(j, i, fs);
    }
    if Full(wal, bs, i) {
      WrittenElsewhere(wal, at, buf, Off(i, fs), Off(i, fs) + fs);
    }
  }

  /* ---- writing frames ---- */

  function MarkerOf(last: bool): nat { if last then 1 else 0 }

  function WithHeader(wal: Bytes, bs: nat, j: nat, b: Block, last: bool, crc: Checksum): Bytes
  {
    Written(wal, Off(j, FrameSize(bs)), HeaderBytes(b.id, MarkerOf(last), crc(b.buf)))
  }

  function WithFrame(wal: Bytes, bs: nat, j: nat, b: Block, last: bool, crc: Checksum): Bytes
  {
    Written(WithHeader(wal, bs, j, b, last, crc), Off(j, FrameSize(bs)) + FRAME_HEADER, b.buf)
  }

  predicate Storable(b: Block, bs: nat) {
    0 <= b.id < TWO_63 && |b.buf| == bs
  }

  /** A whole frame in slot j, and the other slots as before. */
  lemma FrameWritten(wal: Bytes, bs: nat, j: nat, b: Block, last: bool, crc: Checksum)
    requires Is32Bit(crc) && Storable(b, bs) && Off(j, FrameSize(bs)) <= |wal|
    ensures var wal' := WithFrame(wal, bs, j, b, last, crc);
      && Full(wal', bs, j)
      && FrameAt(wal', bs, j) == Frame(b.id, MarkerOf(last), crc(b.buf), b.buf)
      && OthersSame(wal, wal', bs, j)
      && |wal| <= |wal'| && Off(j + 1, FrameSize(bs)) <= |wal'|
  {
    hide BE, BEValue, FrameOf, HeaderBytes, OthersSame;
    var o := Off(j, FrameSize(bs));
    var h := HeaderBytes(b.id, MarkerOf(last), crc(b.buf));
    WrittenTwice(wal, o, h, b.buf);
    WrittenThere(wal, o, h + b.buf);
    FrameOfBytes(b.id, MarkerOf(last), crc(b.buf), b.buf);
    InsideSlot(wal, bs, j, h + b.buf);
  }

  /** How far the write of a frame got before a crash: not begun, some bytes of
      the header, the header, or the header and some bytes of the payload. */
  datatype Stage = NotBegun | HeaderPart(t: nat) | HeaderOnly | PartPayload(t: nat)

  predicate StageFits(stage: Stage, bs: nat) {
    (stage.HeaderPart? ==> 0 < stage.t < FRAME_HEADER) && (stage.PartPayload? ==> stage.t <= bs)
  }

  /** Slot j after a crash while block b was being written to it. */
  function WithStage(wal: Bytes, bs: nat, j: nat, b: Block, last: bool, crc: Checksum, stage: Stage): Bytes
    requires StageFits(stage, |b.buf|)
  {
    match stage
    case NotBegun => wal
    case HeaderPart(t) => Written(wal, Off(j, FrameSize(bs)), HeaderBytes(b.id, MarkerOf(last), crc(b.buf))[..t])
    case HeaderOnly => WithHeader(wal, bs, j, b, last, crc)
    case PartPayload(t) =>
      Written(WithHeader(wal, bs, j, b, last, crc), Off(j, FrameSize(bs)) + FRAME_HEADER, b.buf[..t])
  }

  lemma StageWritten(wal: Bytes, bs: nat, j: nat, b: Block, last: bool, crc: Checksum, stage: Stage)
    requires Is32Bit(crc) && Storable(b, bs) && Off(j, FrameSize(bs)) <= |wal|
    requires StageFits(stage, bs) && !stage.HeaderPart?
    ensures var wal' := WithStage(wal, bs, j, b, last, crc, stage);
      && |wal| <= |wal'|
      && (stage.NotBegun? ==> wal' == wal)
      && OthersSame(wal, wal', bs, j)
      && (!stage.NotBegun? && Full(wal', bs, j) ==>
            var payload := FrameAt(wal', bs, j).payload;
            && FrameAt(wal', bs, j) == Frame(b.id, MarkerOf(last), crc(b.buf), payload)
            && (payload == b.buf ==> wal' == WithFrame(wal, bs, j, b, last, crc)))
  {
    hide FrameOf, FrameAt, Full, HeaderBytes, OthersSame, Written, Off;
    if stage.NotBegun? {
      AllSame(wal, bs, j);
    } else {
      var h := HeaderBytes(b.id, MarkerOf(last), crc(b.buf));
      var part := if stage.HeaderOnly? then [] else b.buf[..stage.t];
      StageIsWrite(wal, bs, j, b, last, crc, stage, part);
      InsideSlot(wal, bs, j, h + part);
      if Full(Written(wal, Off(j, FrameSize(bs)), h + part), bs, j) {
        PartInSlot(wal, bs, j, h, part, b.buf);
        FrameOfBytes(b.id, MarkerOf(last), crc(b.buf),
                     FrameAt(Written(wal, Off(j, FrameSize(bs)), h + part), bs, j).payload);
      }
    }
  }

  /** The checksum read back after the first t bytes of a new header went over
      an old one: its digits change one by one from the twenty-first byte on. */
  function MixedSum(t: nat, was: nat, sum: nat): nat
    requires t <= FRAME_HEADER
  {
    if t <= 20 then was else BEValue(BE(sum, 4)[..t - 20] + BE(was, 4)[t - 20..])
  }

  /** What part of a header does to the frame that stood in the slot: payload
      stays, the new ID and marker count from the sixteenth byte on, and until
      then an unmarked frame stays unmarked. */
  lemma HeaderPartWritten(wal: Bytes, bs: nat, j: nat, b: Block, last: bool, crc: Checksum, t: nat)
    requires Is32Bit(crc) && Storable(b, bs) && Off(j, FrameSize(bs)) <= |wal| && 0 < t < FRAME_HEADER
    ensures var wal' := WithStage(wal, bs, j, b, last, crc, HeaderPart(t));
      && |wal| <= |wal'| && OthersSame(wal, wal', bs, j)
      && (Full(wal', bs, j) <==> Full(wal, bs, j))
      && (Full(wal, bs, j) ==>
            var f, f' := FrameAt(wal, bs, j), FrameAt(wal', bs, j);
            && f'.payload == f.payload && f'.sum == MixedSum(t, f.sum, crc(b.buf))
            && (if t < 16 then f.marker == 0 ==> f'.marker == 0 else f'.id == b.id && f'.marker == MarkerOf(last)))
  {
    hide FrameOf, HeaderBytes, OthersSame, Off, MixedSum;
    var o, fs := Off(j, FrameSize(bs)), FrameSize(bs);
    var h := HeaderBytes(b.id, MarkerOf(last), crc(b.buf));
    var wal' := Written(wal, o, h[..t]);
    InsideSlot(wal, bs, j, h[..t]);
    if Full(wal, bs, j) {
      var slot, slot' := wal[o..o + fs], wal'[o..o + fs];
      forall i | 0 <= i < fs
        ensures slot'[i] == if i < t then h[i] else slot[i]
      {
        assert slot'[i] == wal'[o + i] && slot[i] == wal[o + i];
      }
      MixedSlot(slot, slot', b.id, last, crc(b.buf), t);
    }
  }

  lemma MixedSlot(slot: Bytes, slot': Bytes, id: BlockID, last: bool, sum: nat, t: nat)
    requires FRAME_HEADER <= |slot| == |slot'| && 0 < t < FRAME_HEADER && 0 <= id < TWO_63 && sum < TWO_32
    requires forall i :: 0 <= i < |slot| ==>
      slot'[i] == if i < t then HeaderBytes(id, MarkerOf(last), sum)[i] else slot[i]
    ensures var f, f' := FrameOf(slot), FrameOf(slot');
      && f'.payload == f.payload && f'.sum == MixedSum(t, f.sum, sum)
      && (if t < 16 then f.marker == 0 ==> f'.marker == 0 else f'.id == id && f'.marker == MarkerOf(last))
  {
    hide BE, BEValue, Pow256;
    assert slot'[24..] == slot[24..];
    MixedDigits(slot, slot', id, last, sum, t);
    Powers();
    if t < 16 {
      MixedMarker(slot, slot', id, last, sum, t);
    } else {
      BERoundTrip(id, 8);
      BERoundTrip(MarkerOf(last), 8);
      assert slot'[0..8] == BE(id, 8) && slot'[8..16] == BE(MarkerOf(last), 8);
    }
  }

  lemma MixedMarker(slot: Bytes, slot': Bytes, id: BlockID, last: bool, sum: nat, t: nat)
    requires FRAME_HEADER <= |slot| == |slot'| && 0 < t < 16
    requires forall i :: 0 <= i < |slot| ==>
      slot'[i] == if i < t then HeaderBytes(id, MarkerOf(last), sum)[i] else slot[i]
    ensures BEValue(slot[8..16]) == 0 ==> BEValue(slot'[8..16]) == 0
  {
    hide BEValue, Pow256;
    var m := BE(MarkerOf(last), 8);
    BEOfZero(7);
    assert m[..7] == BE(0, 7);
    ZeroBytes(slot[8..16]);
    ZeroBytes(slot'[8..16]);
    forall i | 0 <= i < 8
      ensures slot[8..16][i] == slot[8 + i] && slot'[8..16][i] == if 8 + i < t then m[i] else slot[8 + i]
    {
    }
  }

  lemma MixedDigits(slot: Bytes, slot': Bytes, id: BlockID, last: bool, sum: nat, t: nat)
    requires FRAME_HEADER <= |slot| == |slot'| && 0 < t < FRAME_HEADER && sum < TWO_32
    requires forall i :: 0 <= i < |slot| ==>
      slot'[i] == if i < t then HeaderBytes(id, MarkerOf(last), sum)[i] else slot[i]
    ensures BEValue(slot'[16..24]) % TWO_32 == MixedSum(t, BEValue(slot[16..24]) % TWO_32, sum)
  {
    hide BE, BEValue, Pow256;
    Powers();
    BELow(slot[16..24], 4);
    BELow(slot'[16..24], 4);
    var low, low' := slot[20..24], slot'[20..24];
    assert slot[16..24][4..] == low && slot'[16..24][4..] == low';
    BEOfValue(low);
    if t <= 20 {
      assert low' == low;
    } else {
      SumDigits(id, last, sum);
      assert low' == BE(sum, 4)[..t - 20] + low[t - 20..];
    }
  }

  lemma SumDigits(id: BlockID, last: bool, sum: nat)
    requires sum < TWO_32
    ensures forall i :: 0 <= i < 4 ==> HeaderBytes(id, MarkerOf(last), sum)[20 + i] == BE(sum, 4)[i]
  {
    hide BE, BEValue, Pow256;
    Powers();
    BERoundTrip(sum, 8);
    BELow(BE(sum, 8), 4);
    BEOfValue(BE(sum, 8)[4..]);
  }

  lemma StageIsWrite(wal: Bytes, bs: nat, j: nat, b: Block, last: bool, crc: Checksum, stage: Stage, part: Bytes)
    requires (stage.HeaderOnly? || stage.PartPayload?) && StageFits(stage, |b.buf|)
    requires part == if stage.HeaderOnly? then [] else b.buf[..stage.t]
    ensures var h := HeaderBytes(b.id, MarkerOf(last), crc(b.buf));
      && WithStage(wal, bs, j, b, last, crc, stage) == Written(wal, Off(j, FrameSize(bs)), h + part)
      && WithFrame(wal, bs, j, b, last, crc) == Written(wal, Off(j, FrameSize(bs)), h + b.buf)
  {
    hide HeaderBytes, Off;
    var o := Off(j, FrameSize(bs));
    var h := HeaderBytes(b.id, MarkerOf(last), crc(b.buf));
    WrittenTwice(wal, o, h, part);
    WrittenTwice(wal, o, h, b.buf);
    assert h + [] == h;
  }

  /** Every slot but j holds what it held. */
  ghost predicate OthersSame(wal: Bytes, wal': Bytes, bs: nat, j: nat) {
    && (forall i :: 0 <= i && i != j ==> (Full(wal', bs, i) <==> Full(wal, bs, i)))
    && (forall i :: 0 <= i && i != j && Full(wal, bs, i) && Full(wal', bs, i) ==>
        FrameAt(wal', bs, i) == FrameAt(wal, bs, i))
  }

  lemma AllSame(wal: Bytes, bs: nat, j: nat)
    ensures OthersSame(wal, wal, bs, j)
  {
  }

  lemma InsideSlot(wal: Bytes, bs: nat, j: nat, buf: Bytes)
    requires Off(j, FrameSize(bs)) <= |wal| && |buf| <= FrameSize(bs)
    ensures OthersSame(wal, Written(wal, Off(j, FrameSize(bs)), buf), bs, j)
  {
    hide FrameOf;
    forall i: nat | i != j
      ensures Full(Written(wal, Off(j, FrameSize(bs)), buf), bs, i) <==> Full(wal, bs, i)
      ensures Full(wal, bs, i) ==> FrameAt(Written(wal, Off(j, FrameSize(bs)), buf), bs, i) == FrameAt(wal, bs, i)
    {
      OtherSlots(wal, bs, j, Off(j, FrameSize(bs)), buf, i);
    }
  }

  lemma PartInSlot(wal: Bytes, bs: nat, j: nat, h: Bytes, part: Bytes, buf: Bytes)
    requires |h| == FRAME_HEADER && |buf| == bs && |part| <= bs
    requires Full(Written(wal, Off(j, FrameSize(bs)), h + part), bs, j)
    ensures var wal' := Written(wal, Off(j, FrameSize(bs)), h + part);
      && FrameAt(wal', bs, j) == FrameOf(h + FrameAt(wal', bs, j).payload)
      && (FrameAt(wal', bs, j).payload == buf ==> wal' == Written(wal, Off(j, FrameSize(bs)), h + buf))
  {
    hide FrameOf, Written, Off;
    var fs, o := FrameSize(bs), Off(j, FrameSize(bs));
    var wal' := Written(wal, o, h + part);
    var slot := wal'[o..o + fs];
    FramePayload(slot);
    SlotBegins(wal, o, h, part, fs);
    if slot[FRAME_HEADER..] == buf {
      SameWrite(wal, wal', o, h + part, h + buf);
    }
  }

  lemma SlotBegins(wal: Bytes, o: nat, h: Bytes, part: Bytes, fs: nat)
    requires |h| <= fs && |h + part| <= fs && o + fs <= |Written(wal, o, h + part)|
    ensures var slot := Written(wal, o, h + part)[o..o + fs]; slot == h + slot[|h|..]
  {
    var wal' := Written(wal, o, h + part);
    var slot := wal'[o..o + fs];
    forall i | 0 <= i < |h|
      ensures slot[i] == h[i]
    {
      assert slot[i] == wal'[o + i] == (h + part)[i];
    }
  }

  lemma FramePayload(slot: Bytes)
    requires FRAME_HEADER <= |slot|
    ensures FrameOf(slot).payload == slot[FRAME_HEADER..]
  {
  }

  /** If the bytes after a partial write already are what the whole write would
      have left, the file is as after the whole write. */
  lemma SameWrite(wal: Bytes, wal': Bytes, o: nat, part: Bytes, whole: Bytes)
    requires wal' == Written(wal, o, part) && |part| <= |whole|
    requires o + |whole| <= |wal'| && wal'[o..o + |whole|] == whole
    ensures wal' == Written(wal, o, whole)
  {
    var w := Written(wal, o, whole);
    forall i | 0 <= i < |wal'|
      ensures wal'[i] == w[i]
    {
      if o <= i < o + |whole| {
        assert wal'[i] == wal'[o..o + |whole|][i - o];
      }
    }
  }

  /* ---- which bytes these are ---- */

  /** Frame j lies at j times the frame size: 24 bytes of header, with block ID,
      commit marker and payload checksum as eight-byte numbers, and the payload. */
  lemma FrameLayout(wal: Bytes, bs: nat, j: nat, b: Block, last: bool, crc: Checksum)
    requires Is32Bit(crc) && Storable(b, bs) && Off(j, FrameSize(bs)) <= |wal|
    ensures var wal', o := WithFrame(wal, bs, j, b, last, crc), j * (24 + bs);
      && 0 <= o && o + 24 + bs <= |wal'|
      && BEValue(wal'[o..o + 8]) == b.id
      && BEValue(wal'[o + 8..o + 16]) == (if last then 1 else 0)
      && BEValue(wal'[o + 16..o + 24]) == crc(b.buf)
      && wal'[o + 24..o + 24 + bs] == b.buf
  {
    hide BE, BEValue, Pow256, HeaderBytes, Written;
    var o := Off(j, FrameSize(bs));
    var h := HeaderBytes(b.id, MarkerOf(last), crc(b.buf));
    OffTimes(j, FrameSize(bs));
    WrittenTwice(wal, o, h, b.buf);
    WrittenThere(wal, o, h + b.buf);
    HeaderNumbers(b.id, MarkerOf(last), crc(b.buf));
    PiecesOf(WithFrame(wal, bs, j, b, last, crc), o, h, b.buf);
  }

  lemma PiecesOf(wal: Bytes, o: nat, h: Bytes, payload: Bytes)
    requires |h| == 24 && o + 24 + |payload| <= |wal| && wal[o..o + 24 + |payload|] == h + payload
    ensures wal[o..o + 8] == h[0..8] && wal[o + 8..o + 16] == h[8..16] && wal[o + 16..o + 24] == h[16..24]
    ensures wal[o + 24..o + 24 + |payload|] == payload
  {
    var n := 24 + |payload|;
    InnerSlice(wal, o, n, 0, 8);
    InnerSlice(wal, o, n, 8, 16);
    InnerSlice(wal, o, n, 16, 24);
    InnerSlice(wal, o, n, 24, n);
    assert (h + payload)[0..8] == h[0..8] && (h + payload)[8..16] == h[8..16] && (h + payload)[16..24] == h[16..24];
    assert (h + payload)[24..n] == payload;
  }

  lemma HeaderNumbers(id: BlockID, marker: nat, sum: nat)
    requires 0 <= id < TWO_63 && marker < TWO_64 && sum < TWO_32
    ensures var h := HeaderBytes(id, marker, sum);
      BEValue(h[0..8]) == id && BEValue(h[8..16]) == marker && BEValue(h[16..24]) == sum
  {
    hide BE, BEValue, Pow256;
    Powers();
    BERoundTrip(id, 8);
    BERoundTrip(marker, 8);
    BERoundTrip(sum, 8);
    var h := HeaderBytes(id, marker, sum);
    assert h[0..8] == BE(id, 8) && h[8..16] == BE(marker, 8) && h[16..24] == BE(sum, 8);
  }
}

/** Rows of dynamically typed values, their stored form, and the key an index
    computes from some of their columns. */
module Rows {
  import opened Bytes
  import opened Codec

  const BILLION: int := 1_000_000_000

  /** real numbers by their 64 bits; times by seconds, nanoseconds and zone
      offset in seconds. */
  datatype Value =
    | Null
    | Int(i: int)
    | Real(bits: nat)
    | Text(text: Bytes)
    | Bool(b: bool)
    | Blob(blob: Bytes)
    | Time(sec: int, nsec: nat, offset: int)
    | UUID(id: Bytes)

  type Row = seq<Value>

  /** Numbers are in the range of their types. */
  predicate WellTyped(v: Value) {
    match v
    case Int(i) => -TWO_63 <= i < TWO_63
    case Real(bits) => bits < TWO_64
    case Time(sec, nsec, _) => -TWO_63 <= sec < TWO_63 && nsec < BILLION
    case UUID(id) => |id| == 16
    case _ => true
  }

  /** Lengths that the encoder takes; it panics on longer ones. */
  predicate Storable(v: Value) {
    match v
    case Text(text) => |text| <= MAX_INT32
    case Blob(blob) => |blob| <= MAX_INT32
    case _ => true
  }

  predicate AllWellTyped(row: Row) {
    forall i :: 0 <= i < |row| ==> WellTyped(row[i])
  }

  predicate AllStorable(row: Row) {
    forall i :: 0 <= i < |row| ==> Storable(row[i])
  }

  /** Go's integer division truncates toward zero. */
  function Minutes(offset: int): int {
    if offset >= 0 then offset / 60 else -(-offset / 60)
  }

  /** What is left of a value once it was stored: the zone offset in whole minutes. */
  function AsStored(v: Value): Value {
    if v.Time? then v.(offset := 60 * ToInt16(Minutes(v.offset))) else v
  }

  function RowAsStored(row: Row): (r: Row)
    ensures |r| == |row|
  {
    seq(|row|, i requires 0 <= i < |row| => AsStored(row[i]))
  }

  function TimeBytes(sec: int, nsec: nat, offset: int): (b: Bytes)
    ensures |b| == 14
  {
    LE(sec % TWO_64, 8) + LE(nsec % TWO_32, 4) + LE(Minutes(offset) % TWO_16, 2)
  }

  /* ---- the stored row ---- */

  /** The type tag a value is stored behind. */
  function DataType(v: Value): byte {
    match v
    case Null => 1
    case Int(_) => 3
    case Real(_) => 4
    case Text(_) => 5
    case Bool(_) => 6
    case Blob(_) => 7
    case Time(_, _, _) => 8
    case UUID(_) => 9
  }

  function Payload(v: Value): Bytes {
    match v
    case Null => []
    case Int(i) => LE(i % TWO_64, 8)
    case Real(bits) => LE(bits % TWO_64, 8)
    case Text(text) => LengthPrefixed(text)
    case Bool(b) => [if b then 1 else 0]
    case Blob(blob) => LengthPrefixed(blob)
    case Time(sec, nsec, offset) => TimeBytes(sec, nsec, offset)
    case UUID(id) => id
  }

  function ValueBytes(v: Value): Bytes {
    [DataType(v)] + Payload(v)
  }

  function ValuesBytes(row: Row): Bytes {
    if row == [] then [] else ValueBytes(row[0]) + ValuesBytes(row[1..])
  }

  function RowBytes(row: Row): Bytes {
    LE(|row| % TWO_16, 2) + ValuesBytes(row)
  }

  method PutTime(e: Encoder, sec: int, nsec: nat, offset: int)
    requires nsec < BILLION
    modifies e
    ensures e.backing == old(e.backing) + TimeBytes(sec, nsec, offset)
  {
    hide LE;
    e.PutUint64(sec);
    var ok := e.PutAsUint32(nsec);
    e.PutUint16(Minutes(offset));
  }

  /** Appends one value behind its type tag. */
  method EncodeValue(e: Encoder, v: Value) returns (ok: bool)
    requires WellTyped(v)
    modifies e
    ensures ok <==> Storable(v)
    ensures ok ==> e.backing == old(e.backing) + ValueBytes(v)
  {
    hide LE, LengthPrefixed, TimeBytes, Payload;
    e.PutUint8(DataType(v));
    ok := EncodePayload(e, v);
  }

  method EncodePayload(e: Encoder, v: Value) returns (ok: bool)
    requires WellTyped(v)
    modifies e
    ensures ok <==> Storable(v)
    ensures ok ==> e.backing == old(e.backing) + Payload(v)
  {
    hide LE, LengthPrefixed, TimeBytes;
    ok := true;
    match v {
      case Null =>
      case Int(i) => e.PutUint64(i);
      case Real(bits) => e.PutUint64(bits);
      case Text(text) => ok := e.PutBytesWithLength(text);
      case Bool(b) => e.PutBool(b);
      case Blob(blob) => ok := e.PutBytesWithLength(blob);
      case Time(sec, nsec, offset) => PutTime(e, sec, nsec, offset);
      case UUID(id) => e.PutBytes(id);
    }
  }

  /** The stored form of a row; fails where the original panics. */
  method Encode(row: Row) returns (buf: Bytes, ok: bool)
    requires AllWellTyped(row)
    ensures ok <==> |row| <= MAX_INT16 && AllStorable(row)
    ensures ok ==> buf == RowBytes(row)
  {
    hide LE, WellTyped, Storable, ValueBytes;
    var e := new Encoder();
    ok := e.PutAsUint16(|row|);
    buf := [];
    if !ok {
      return;
    }
    var i := 0;
    ghost var head := e.backing;
    assert row[..0] == [];
    while i < |row|
      invariant i <= |row| && fresh(e) && e.backing == head + ValuesBytes(row[..i])
      invariant forall k :: 0 <= k < i ==> Storable(row[k])
    {
      ok := EncodeValue(e, row[i]);
      if !ok {
        return;
      }
      ValuesGrow(row[..i], row[i]);
      assert row[..i + 1] == row[..i] + [row[i]];
      i := i + 1;
    }
    assert row[..|row|] == row;
    buf, ok := e.backing, true;
  }

  lemma {:induction false} ValuesGrow(row: Row, v: Value)
    ensures ValuesBytes(row + [v]) == ValuesBytes(row) + ValueBytes(v)
  {
    hide ValueBytes;
    if row == [] {
      assert row + [v] == [v];
    } else {
      ValuesGrow(row[1..], v);
      assert (row + [v])[1..] == row[1..] + [v];
    }
  }

  /* ---- reading it back ---- */

  datatype ReadResult = Got(v: Value, used: nat) | Truncated | BadType | Unsupported

  datatype RowResult = RowOk(row: Row) | RowBad(why: ReadResult)

  function ReadPrefixed(s: Bytes): (r: ReadResult)
    ensures r.Got? ==> r.v.Blob? && 4 <= r.used <= |s|
    ensures r.Got? || r.Truncated?
  {
    if |s| < 4 then Truncated
    else
      var n := LEValue(s[..4]);
      if 4 + n <= |s| then Got(Blob(s[4..4 + n]), 4 + n) else Truncated
  }

  /** A stored instant; a nanosecond count past a second carries over. */
  function ReadTime(s: Bytes): Value
    requires 14 <= |s|
  {
    var nsec := LEValue(s[8..12]);
    Time(ToInt64(LEValue(s[..8]) + nsec / BILLION), nsec % BILLION, 60 * ToInt16(LEValue(s[12..14])))
  }

  /** The value of type tag t whose bytes start s. */
  function ReadPayload(t: byte, s: Bytes): (r: ReadResult)
    ensures r.Got? ==> r.used <= |s|
  {
    if t < 1 || t > 9 then BadType
    else if t == 1 then Got(Null, 0)
    else if t == 2 then Unsupported
    else if t == 3 then (if |s| < 8 then Truncated else Got(Int(ToInt64(LEValue(s[..8]))), 8))
    else if t == 4 then (if |s| < 8 then Truncated else Got(Real(LEValue(s[..8])), 8))
    else if t == 5 then (var p := ReadPrefixed(s); if p.Got? then Got(Text(p.v.blob), p.used) else p)
    else if t == 6 then (if |s| < 1 then Truncated else Got(Bool(s[0] != 0), 1))
    else if t == 7 then ReadPrefixed(s)
    else if t == 8 then (if |s| < 14 then Truncated else Got(ReadTime(s), 14))
    else if |s| < 16 then Truncated else Got(UUID(s[..16]), 16)
  }

  function ReadValue(s: Bytes): (r: ReadResult)
    ensures r.Got? ==> 1 <= r.used <= |s|
  {
    if s == [] then Truncated
    else
      var r := ReadPayload(s[0], s[1..]);
      if r.Got? then Got(r.v, 1 + r.used) else r
  }

  /** n values, one after the other; what follows them is not looked at. */
  function ReadValues(s: Bytes, n: nat): (r: RowResult)
    ensures r.RowOk? ==> |r.row| == n
  {
    if n == 0 then RowOk([])
    else
      var first := ReadValue(s);
      if !first.Got? then RowBad(first)
      else
        var rest := ReadValues(s[first.used..], n - 1);
        if rest.RowOk? then RowOk([first.v] + rest.row) else rest
  }

  function Decoded(buf: Bytes): RowResult {
    if |buf| < 2 then RowBad(Truncated) else ReadValues(buf[2..], LEValue(buf[..2]))
  }

  /** Whatever is read is in the range of its type. */
  lemma {:induction false} ReadWellTyped(s: Bytes, n: nat)
    ensures ReadValues(s, n).RowOk? ==> AllWellTyped(ReadValues(s, n).row)
  {
    hide ReadValue, WellTyped;
    if n > 0 && ReadValue(s).Got? {
      ReadWellTyped(s[ReadValue(s).used..], n - 1);
      ReadOneWellTyped(s);
    }
  }

  lemma DecodedWellTyped(buf: Bytes)
    ensures Decoded(buf).RowOk? ==> AllWellTyped(Decoded(buf).row)
  {
    hide LEValue, ReadValues;
    if |buf| >= 2 {
      ReadWellTyped(buf[2..], LEValue(buf[..2]));
    }
  }

  lemma ReadOneWellTyped(s: Bytes)
    ensures ReadValue(s).Got? ==> WellTyped(ReadValue(s).v)
  {
    hide LEValue, Pow256;
    Powers();
    if |s| > 8 {
      LEBound(s[1..][..8]);
    }
  }

  lemma PrefixedRoundTrip(b: Bytes, rest: Bytes)
    requires |b| <= MAX_INT32
    ensures ReadPrefixed(LengthPrefixed(b) + rest) == Got(Blob(b), |LengthPrefixed(b)|)
  {
    hide LE, LEValue, Pow256;
    Powers();
    LERoundTrip(|b|, 4);
    var s := LengthPrefixed(b) + rest;
    assert s[..4] == LE(|b|, 4) && s[4..4 + |b|] == b;
  }

  lemma TimeRoundTrip(sec: int, nsec: nat, offset: int, rest: Bytes)
    requires -TWO_63 <= sec < TWO_63 && nsec < BILLION
    ensures ReadTime(TimeBytes(sec, nsec, offset) + rest) == AsStored(Time(sec, nsec, offset))
  {
    hide LE, LEValue, Pow256;
    Powers();
    LERoundTrip(sec % TWO_64, 8);
    LERoundTrip(nsec, 4);
    LERoundTrip(Minutes(offset) % TWO_16, 2);
    var s := TimeBytes(sec, nsec, offset) + rest;
    assert s[..8] == LE(sec % TWO_64, 8);
    assert s[8..12] == LE(nsec, 4);
    assert s[12..14] == LE(Minutes(offset) % TWO_16, 2);
  }

  /** A stored value, followed by anything, reads back as it was stored. */
  lemma ValueRoundTrip(v: Value, rest: Bytes)
    requires WellTyped(v) && Storable(v)
    ensures ReadValue(ValueBytes(v) + rest) == Got(AsStored(v), |ValueBytes(v)|)
  {
    hide LE, LEValue, Pow256, ReadPrefixed, ReadTime, LengthPrefixed, TimeBytes, ToInt16;
    Powers();
    var s := Payload(v) + rest;
    assert (ValueBytes(v) + rest)[1..] == s;
    match v {
      case Null =>
      case Int(i) =>
        LERoundTrip(i % TWO_64, 8);
        assert s[..8] == LE(i % TWO_64, 8);
      case Real(bits) =>
        LERoundTrip(bits, 8);
        assert s[..8] == LE(bits, 8);
      case Text(text) =>
        PrefixedRoundTrip(text, rest);
      case Bool(b) =>
      case Blob(blob) =>
        PrefixedRoundTrip(blob, rest);
      case Time(sec, nsec, offset) =>
        TimeRoundTrip(sec, nsec, offset, rest);
      case UUID(id) =>
        assert s[..16] == id;
    }
  }

  lemma {:induction false} ValuesRoundTrip(row: Row, rest: Bytes)
    requires AllWellTyped(row) && AllStorable(row)
    ensures ReadValues(ValuesBytes(row) + rest, |row|) == RowOk(RowAsStored(row))
  {
    hide ValueBytes, ReadValue, WellTyped, Storable, AsStored;
    if row == [] {
    } else {
      var rest' := ValuesBytes(row[1..]) + rest;
      assert ValuesBytes(row) + rest == ValueBytes(row[0]) + rest';
      ValueRoundTrip(row[0], rest');
      assert (ValueBytes(row[0]) + rest')[|ValueBytes(row[0])|..] == rest';
      ValuesRoundTrip(row[1..], rest);
      assert RowAsStored(row) == [AsStored(row[0])] + RowAsStored(row[1..]);
    }
  }

  /** Decoding an encoded row, whatever follows it, gives the row back, times
      with their zone offsets cut to whole minutes. */
  lemma RowRoundTrip(row: Row, rest: Bytes)
    requires AllWellTyped(row) && AllStorable(row) && |row| <= MAX_INT16
    ensures Decoded(RowBytes(row) + rest) == RowOk(RowAsStored(row))
  {
    hide LE, LEValue, Pow256, ReadValues, ValuesBytes;
    Powers();
    LERoundTrip(|row|, 2);
    var s := RowBytes(row) + rest;
    assert s[..2] == LE(|row|, 2) && s[2..] == ValuesBytes(row) + rest;
    ValuesRoundTrip(row, rest);
  }

  /** The round trip is exact if and only if every time is at a whole-minute
      offset that fits 16 bits. */
  lemma RowRoundTripExact(row: Row, rest: Bytes)
    requires AllWellTyped(row) && AllStorable(row) && |row| <= MAX_INT16
    ensures Decoded(RowBytes(row) + rest) == RowOk(row) <==>
      forall i :: 0 <= i < |row| && row[i].Time? ==>
          row[i].offset % 60 == 0 && -0x8000 <= row[i].offset / 60 <= MAX_INT16
  {
    RowRoundTrip(row, rest);
    forall i | 0 <= i < |row|
      ensures AsStored(row[i]) == row[i] <==>
        (row[i].Time? ==> row[i].offset % 60 == 0 && -0x8000 <= row[i].offset / 60 <= MAX_INT16)
    {
      if row[i].Time? {
        WholeMinutes(row[i].offset);
      }
    }
    if forall i :: 0 <= i < |row| ==> AsStored(row[i]) == row[i] {
      assert RowAsStored(row) == row;
    } else {
      var i :| 0 <= i < |row| && AsStored(row[i]) != row[i];
      assert RowAsStored(row)[i] != row[i];
    }
  }

  lemma WholeMinutes(offset: int)
    ensures 60 * ToInt16(Minutes(offset)) == offset <==> offset % 60 == 0 && -0x8000 <= offset / 60 <= MAX_INT16
  {
    if offset % 60 == 0 {
      assert Minutes(offset) == offset / 60;
    }
  }

  /* ---- the decoder ---- */

  method DecodeTime(d: Decoder) returns (v: Value, ok: bool)
    requires d.pos <= |d.backing|
    modifies d`pos
    ensures d.pos <= |d.backing| && (ok <==> 14 <= |old(d.Rest())|)
    ensures ok ==> v == ReadTime(old(d.Rest())) && d.Rest() == old(d.Rest())[14..]
  {
    hide LEValue, ToInt64, ToInt16;
    v := Null;
    ghost var s := d.Rest();
    var sec, nsec, offsetMin;
    sec, ok := d.GetUint64();
    if !ok {
      return;
    }
    nsec, ok := d.GetUint32();
    if !ok {
      return;
    }
    offsetMin, ok := d.GetUint16();
    if !ok {
      return;
    }
    assert s[8..][..4] == s[8..12] && s[12..][..2] == s[12..14];
    v := Time(ToInt64(sec + nsec / BILLION), nsec % BILLION, 60 * ToInt16(offsetMin));
  }

  /** Reads one value behind its type tag. */
  method DecodeValue(d: Decoder) returns (r: ReadResult)
    requires d.pos <= |d.backing|
    modifies d`pos
    ensures d.pos <= |d.backing| && r == ReadValue(old(d.Rest()))
    ensures r.Got? ==> d.Rest() == old(d.Rest())[r.used..]
  {
    ghost var s := d.Rest();
    var t, ok := d.GetUint8();
    if !ok {
      return Truncated;
    }
    r := DecodePayload(d, t);
    if r.Got? {
      r := Got(r.v, 1 + r.used);
    }
  }

  method DecodePayload(d: Decoder, t: byte) returns (r: ReadResult)
    requires d.pos <= |d.backing|
    modifies d`pos
    ensures d.pos <= |d.backing| && r == ReadPayload(t, old(d.Rest()))
    ensures r.Got? ==> d.Rest() == old(d.Rest())[r.used..]
  {
    hide LEValue, ToInt64, ReadTime;
    if t < 1 || t > 9 {
      return BadType;
    } else if t == 1 {
      return Got(Null, 0);
    } else if t == 3 || t == 4 {
      var n, ok := d.GetUint64();
      return if !ok then Truncated else Got(if t == 3 then Int(ToInt64(n)) else Real(n), 8);
    } else if t == 5 || t == 7 {
      var b, ok := d.GetBytesWithLength();
      return if !ok then Truncated else Got(if t == 5 then Text(b) else Blob(b), 4 + |b|);
    } else if t == 6 {
      var b, ok := d.GetUint8();
      return if !ok then Truncated else Got(Bool(b != 0), 1);
    } else if t == 8 {
      var v, ok := DecodeTime(d);
      return if !ok then Truncated else Got(v, 14);
    } else if t == 9 {
      var id, ok := d.GetBytes(16);
      return if !ok then Truncated else Got(UUID(id), 16);
    }
    r := Unsupported;
  }

  ghost function After(values: Row, r: RowResult): RowResult {
    if r.RowOk? then RowOk(values + r.row) else r
  }

  method DecodeRow(buf: Bytes) returns (r: RowResult)
    ensures r == Decoded(buf)
  {
    hide LEValue, ReadValue;
    var d := new Decoder(buf);
    var count, ok := d.GetUint16();
    if !ok {
      return RowBad(Truncated);
    }
    var values: Row := [];
    var i := 0;
    assert ReadValues(buf[2..], count) == After(values, ReadValues(d.Rest(), count));
    while i < count
      invariant i <= count && |values| == i && fresh(d) && d.pos <= |d.backing|
      invariant ReadValues(buf[2..], count) == After(values, ReadValues(d.Rest(), count - i))
    {
      ghost var s := d.Rest();
      var v := DecodeValue(d);
      if !v.Got? {
        return RowBad(v);
      }
      AfterMore(values, v.v, ReadValues(d.Rest(), count - i - 1));
      values := values + [v.v];
      i := i + 1;
    }
    r := RowOk(values);
  }

  lemma AfterMore(values: Row, v: Value, r: RowResult)
    ensures After(values, if r.RowOk? then RowOk([v] + r.row) else r) == After(values + [v], r)
  {
    if r.RowOk? {
      assert values + ([v] + r.row) == values + [v] + r.row;
    }
  }

  /* ---- which bytes these are ---- */

  /** A stored value is its tag and then eight bytes for a number, four of length
      and the bytes for a text or blob, one byte for a truth value, sixteen for a
      UUID, and for a time the seconds, nanoseconds and whole minutes of the zone. */
  lemma ValueLayout(v: Value)
    requires WellTyped(v) && Storable(v)
    ensures var b := ValueBytes(v);
      match v
      case Null => b == [1]
      case Int(i) => |b| == 9 && b[0] == 3 && ToInt64(LEValue(b[1..9])) == i
      case Real(bits) => |b| == 9 && b[0] == 4 && LEValue(b[1..9]) == bits
      case Text(text) => 5 <= |b| && b[0] == 5 && LEValue(b[1..5]) == |text| && b[5..] == text
      case Bool(t) => b == [6, if t then 1 else 0]
      case Blob(blob) => 5 <= |b| && b[0] == 7 && LEValue(b[1..5]) == |blob| && b[5..] == blob
      case Time(sec, nsec, offset) =>
        && |b| == 15 && b[0] == 8 && ToInt64(LEValue(b[1..9])) == sec && LEValue(b[9..13]) == nsec
        && LEValue(b[13..15]) == Minutes(offset) % TWO_16
      case UUID(id) => |b| == 17 && b[0] == 9 && b[1..] == id
  {
    hide LE, LEValue, Pow256, Minutes;
    Powers();
    match v {
      case Int(i) =>
        NumberBack(i % TWO_64, 8);
        assert ValueBytes(v)[1..9] == LE(i % TWO_64, 8);
      case Real(bits) =>
        NumberBack(bits, 8);
        assert ValueBytes(v)[1..9] == LE(bits, 8);
      case Text(text) => PrefixLayout([DataType(v)], text);
      case Blob(blob) => PrefixLayout([DataType(v)], blob);
      case Time(sec, nsec, offset) =>
        NumberBack(sec % TWO_64, 8);
        NumberBack(nsec, 4);
        NumberBack(Minutes(offset) % TWO_16, 2);
        ThreePieces([8], LE(sec % TWO_64, 8), LE(nsec, 4), LE(Minutes(offset) % TWO_16, 2));
      case _ =>
    }
  }

  lemma ThreePieces(head: Bytes, x: Bytes, y: Bytes, z: Bytes)
    requires |head| == 1 && |x| == 8 && |y| == 4 && |z| == 2
    ensures var b := head + (x + y + z);
      |b| == 15 && b[0] == head[0] && b[1..9] == x && b[9..13] == y && b[13..15] == z
  {
  }

  lemma NumberBack(n: nat, w: nat)
    requires (w == 8 && n < TWO_64) || (w == 4 && n < TWO_32) || (w == 2 && n < TWO_16)
    ensures LEValue(LE(n, w)) == n
  {
    hide LE, LEValue, Pow256;
    Powers();
    LERoundTrip(n, w);
  }

  lemma PrefixLayout(head: Bytes, text: Bytes)
    requires |head| == 1 && |text| <= MAX_INT32
    ensures var b := head + LengthPrefixed(text);
      5 <= |b| && b[0] == head[0] && LEValue(b[1..5]) == |text| && b[5..] == text
  {
    hide LE, LEValue;
    NumberBack(|text|, 4);
    var b := head + LengthPrefixed(text);
    assert b[1..5] == LE(|text|, 4) && b[5..] == text;
  }

  /** A stored row is the number of its values in two bytes and then the values. */
  lemma RowLayout(row: Row, v: Value)
    requires |row| < MAX_INT16
    ensures |RowBytes([])| == 2 && LEValue(RowBytes([])) == 0
    ensures 2 <= |RowBytes(row)| && LEValue(RowBytes(row)[..2]) == |row|
    ensures RowBytes(row + [v])[2..] == RowBytes(row)[2..] + ValueBytes(v)
  {
    hide LE, LEValue, Pow256, ValueBytes;
    NumberBack(|row|, 2);
    NumberBack(0, 2);
    ValuesGrow(row, v);
    assert RowBytes([]) == LE(0, 2);
    assert RowBytes(row)[..2] == LE(|row|, 2) && RowBytes(row)[2..] == ValuesBytes(row);
    assert RowBytes(row + [v])[2..] == ValuesBytes(row + [v]);
  }

  /** A zone offset loses less than a minute, towards zero. */
  lemma MinutesCut(sec: int, nsec: nat, offset: int)
    requires -0x8000 * 60 <= offset < 0x8000 * 60
    ensures var o := AsStored(Time(sec, nsec, offset)).offset;
      && AsStored(Time(sec, nsec, offset)) == Time(sec, nsec, o) && o % 60 == 0
      && (0 <= offset ==> 0 <= o <= offset < o + 60) && (offset <= 0 ==> o - 60 < offset <= o <= 0)
  {
  }

  /** No other value changes when it is stored. */
  lemma OthersKept(v: Value)
    ensures !v.Time? ==> AsStored(v) == v
  {
  }

  /** Which bytes are a value, and which one: other tags, and too few bytes behind
      one, are none. */
  lemma ValueFromBytes(s: Bytes)
    ensures s == [] || s[0] !in {1, 3, 4, 5, 6, 7, 8, 9} ==> !ReadValue(s).Got?
    ensures s != [] && s[0] == 1 ==> ReadValue(s) == Got(Null, 1)
    ensures s != [] && (s[0] == 3 || s[0] == 4) ==>
      if |s| < 9 then !ReadValue(s).Got?
      else
        var n := LEValue(s[1..9]);
        ReadValue(s) == Got(if s[0] == 3 then Int(ToInt64(n)) else Real(n), 9)
    ensures s != [] && (s[0] == 5 || s[0] == 7) ==>
      if |s| < 5 || |s| < 5 + LEValue(s[1..5]) then !ReadValue(s).Got?
      else
        var n := LEValue(s[1..5]);
        ReadValue(s) == Got(if s[0] == 5 then Text(s[5..5 + n]) else Blob(s[5..5 + n]), 5 + n)
    ensures s != [] && s[0] == 6 ==> if |s| < 2 then !ReadValue(s).Got? else ReadValue(s) == Got(Bool(s[1] != 0), 2)
    ensures s != [] && s[0] == 9 ==> if |s| < 17 then !ReadValue(s).Got? else ReadValue(s) == Got(UUID(s[1..17]), 17)
  {
    hide LEValue;
    if 5 <= |s| {
      assert s[1..][..4] == s[1..5];
      var n := LEValue(s[1..5]);
      if 5 + n <= |s| {
        assert s[1..][4..4 + n] == s[5..5 + n];
      }
    }
    if 9 <= |s| {
      assert s[1..][..8] == s[1..9];
    }
    if 17 <= |s| {
      assert s[1..][..16] == s[1..17];
    }
  }

  /** A stored time is an instant to the nanosecond and a zone in whole minutes. */
  lemma TimeFromBytes(s: Bytes)
    requires s != [] && s[0] == 8
    ensures |s| < 15 ==> !ReadValue(s).Got?
    ensures 15 <= |s| ==>
      var sec, nsec, zone := LEValue(s[1..9]), LEValue(s[9..13]), LEValue(s[13..15]);
      ReadValue(s).Got? && ReadValue(s).used == 15 &&
      var v := ReadValue(s).v;
      && v.Time? && v.nsec == nsec % 1_000_000_000 && (v.sec - sec - nsec / 1_000_000_000) % TWO_64 == 0
      && v.offset == 60 * ToInt16(zone)
  {
    hide LEValue;
    if 15 <= |s| {
      assert s[1..][..8] == s[1..9] && s[1..][8..12] == s[9..13] && s[1..][12..14] == s[13..15];
    }
  }
}

/** The keys indexes compute from rows, and when such a key tells rows apart. */
module IndexKeys {
  import opened Options
  import opened Bytes
  import opened Codec
  import opened Rows

  /** The part of an index key that one value contributes; truth values and
      UUIDs contribute nothing. */
  function KeyPart(v: Value): Bytes {
    match v
    case Null => [1]
    case Int(i) => LE(i % TWO_64, 8)
    case Real(bits) => LE(bits % TWO_64, 8)
    case Time(sec, nsec, offset) => TimeBytes(sec, nsec, offset)
    case Text(text) => LengthPrefixed(text)
    case Blob(blob) => LengthPrefixed(blob)
    case Bool(_) => []
    case UUID(_) => []
  }

  function KeyParts(values: Row): Bytes {
    if values == [] then [] else KeyPart(values[0]) + KeyParts(values[1..])
  }

  function MixedKey(values: Row): Bytes
    requires |values| <= MAX_INT8
  {
    [|values| as byte] + KeyParts(values)
  }

  /** The index key of some column values; fails where the original panics. */
  method EncodeMixedArray(values: Row) returns (key: Bytes, ok: bool)
    requires AllWellTyped(values)
    ensures ok <==> |values| <= MAX_INT8 && AllStorable(values)
    ensures ok ==> key == MixedKey(values)
  {
    hide LE, WellTyped, Storable, KeyPart;
    var e := new Encoder();
    ok := e.PutAsUint8(|values|);
    key := [];
    if !ok {
      return;
    }
    var i := 0;
    ghost var head := e.backing;
    assert values[..0] == [];
    while i < |values|
      invariant i <= |values| && fresh(e) && e.backing == head + KeyParts(values[..i])
      invariant forall k :: 0 <= k < i ==> Storable(values[k])
    {
      ok := PutKeyPart(e, values[i]);
      if !ok {
        return;
      }
      KeyPartsGrow(values[..i], values[i]);
      assert values[..i + 1] == values[..i] + [values[i]];
      i := i + 1;
    }
    assert values[..|values|] == values;
    key, ok := e.backing, true;
  }

  method PutKeyPart(e: Encoder, v: Value) returns (ok: bool)
    requires WellTyped(v)
    modifies e
    ensures ok <==> Storable(v)
    ensures ok ==> e.backing == old(e.backing) + KeyPart(v)
  {
    hide LE, LengthPrefixed, TimeBytes;
    ok := true;
    match v {
      case Int(i) => e.PutUint64(i);
      case Real(bits) => e.PutUint64(bits);
      case Time(sec, nsec, offset) => PutTime(e, sec, nsec, offset);
      case Text(text) => ok := e.PutBytesWithLength(text);
      case Blob(blob) => ok := e.PutBytesWithLength(blob);
      case Null => e.PutUint8(1);
      case Bool(_) =>
      case UUID(_) =>
    }
  }

  lemma {:induction false} KeyPartsGrow(values: Row, v: Value)
    ensures KeyParts(values + [v]) == KeyParts(values) + KeyPart(v)
  {
    hide KeyPart;
    if values == [] {
      assert values + [v] == [v];
    } else {
      KeyPartsGrow(values[1..], v);
      assert (values + [v])[1..] == values[1..] + [v];
    }
  }

  /** Storing a row does not change the keys computed from it. */
  lemma {:induction false} KeyOfStored(values: Row)
    ensures KeyParts(RowAsStored(values)) == KeyParts(values)
  {
    hide LE;
    if values != [] {
      KeyOfStored(values[1..]);
      assert RowAsStored(values)[1..] == RowAsStored(values[1..]);
      if values[0].Time? {
        MinutesKept(values[0].offset);
      }
    }
  }

  lemma MinutesKept(offset: int)
    ensures Minutes(60 * ToInt16(Minutes(offset))) % TWO_16 == Minutes(offset) % TWO_16
  {
    var m := ToInt16(Minutes(offset));
    assert Minutes(60 * m) == m;
  }

  predicate SameType(v: Value, w: Value) {
    DataType(v) == DataType(w)
  }

  predicate SameTypes(a: Row, b: Row) {
    |a| == |b| && forall i :: 0 <= i < |a| ==> SameType(a[i], b[i])
  }

  /** Values that an index cannot tell apart. */
  predicate SameKeyPart(v: Value, w: Value) {
    v.Bool? || v.UUID? || AsStored(v) == AsStored(w)
  }

  /** Two rows of one type vector get the same key if and only if they agree in
      every column but the truth values and UUIDs, zone offsets taken in minutes. */
  lemma KeysTellApart(a: Row, b: Row)
    requires SameTypes(a, b) && AllWellTyped(a) && AllWellTyped(b) && AllStorable(a) && AllStorable(b)
    requires |a| <= MAX_INT8
    ensures MixedKey(a) == MixedKey(b) <==> forall i :: 0 <= i < |a| ==> SameKeyPart(a[i], b[i])
  {
    hide KeyParts, SameKeyPart;
    AllPartsTellApart(a, b);
    assert MixedKey(a)[1..] == KeyParts(a) && MixedKey(b)[1..] == KeyParts(b);
  }

  lemma {:induction false} AllPartsTellApart(a: Row, b: Row)
    requires SameTypes(a, b) && AllWellTyped(a) && AllWellTyped(b) && AllStorable(a) && AllStorable(b)
    ensures KeyParts(a) == KeyParts(b) <==> forall i :: 0 <= i < |a| ==> SameKeyPart(a[i], b[i])
  {
    hide KeyPart, WellTyped, Storable, SameKeyPart, SameType;
    if a != [] {
      AllPartsTellApart(a[1..], b[1..]);
      PartsTellApart(a[0], b[0], KeyParts(a[1..]), KeyParts(b[1..]));
      assert (forall i :: 0 <= i < |a| ==> SameKeyPart(a[i], b[i])) <==>
        SameKeyPart(a[0], b[0]) && forall i :: 0 <= i < |a| - 1 ==> SameKeyPart(a[1..][i], b[1..][i]) by {
        if SameKeyPart(a[0], b[0]) && forall i :: 0 <= i < |a| - 1 ==> SameKeyPart(a[1..][i], b[1..][i]) {
          forall i | 0 <= i < |a|
            ensures SameKeyPart(a[i], b[i])
          {
            if i > 0 {
              assert SameKeyPart(a[1..][i - 1], b[1..][i - 1]);
            }
          }
        }
      }
    }
  }

  /** Parts of one type are self-delimiting. */
  lemma PartsTellApart(v: Value, w: Value, x: Bytes, y: Bytes)
    requires SameType(v, w) && WellTyped(v) && WellTyped(w) && Storable(v) && Storable(w)
    ensures KeyPart(v) + x == KeyPart(w) + y <==> SameKeyPart(v, w) && x == y
  {
    hide LE, LEValue, Pow256, TimeBytes, LengthPrefixed;
    match v {
      case Null => FixedWidth([1], [1], x, y);
      case Int(i) =>
        FixedWidth(LE(i % TWO_64, 8), LE(w.i % TWO_64, 8), x, y);
        DigitsTellApart(i % TWO_64, w.i % TWO_64, 8);
      case Real(bits) =>
        FixedWidth(LE(bits, 8), LE(w.bits, 8), x, y);
        DigitsTellApart(bits, w.bits, 8);
      case Time(sec, nsec, offset) =>
        FixedWidth(TimeBytes(sec, nsec, offset), TimeBytes(w.sec, w.nsec, w.offset), x, y);
        TimesTellApart(v, w);
      case Text(text) => PrefixedTellApart(text, w.text, x, y);
      case Blob(blob) => PrefixedTellApart(blob, w.blob, x, y);
      case Bool(_) => FixedWidth([], [], x, y);
      case UUID(_) => FixedWidth([], [], x, y);
    }
  }

  lemma FixedWidth(a: Bytes, b: Bytes, x: Bytes, y: Bytes)
    requires |a| == |b|
    ensures a + x == b + y <==> a == b && x == y
  {
    if a + x == b + y {
      assert (a + x)[..|a|] == a && (a + x)[|a|..] == x && (b + y)[..|b|] == b && (b + y)[|b|..] == y;
    }
  }

  lemma DigitsTellApart(m: nat, n: nat, w: nat)
    requires (w == 8 && m < TWO_64 && n < TWO_64) || (w == 4 && m < TWO_32 && n < TWO_32) ||
      (w == 2 && m < TWO_16 && n < TWO_16)
    ensures LE(m, w) == LE(n, w) <==> m == n
  {
    hide LE, LEValue, Pow256;
    Powers();
    LERoundTrip(m, w);
    LERoundTrip(n, w);
  }

  lemma TimesTellApart(v: Value, w: Value)
    requires v.Time? && w.Time? && WellTyped(v) && WellTyped(w)
    ensures TimeBytes(v.sec, v.nsec, v.offset) == TimeBytes(w.sec, w.nsec, w.offset) <==> AsStored(v) == AsStored(w)
  {
    hide LE;
    DigitsTellApart(v.sec % TWO_64, w.sec % TWO_64, 8);
    DigitsTellApart(v.nsec, w.nsec, 4);
    var m, n := Minutes(v.offset) % TWO_16, Minutes(w.offset) % TWO_16;
    DigitsTellApart(m, n, 2);
    FixedWidth(LE(v.sec % TWO_64, 8), LE(w.sec % TWO_64, 8), LE(v.nsec, 4), LE(w.nsec, 4));
    FixedWidth(LE(v.sec % TWO_64, 8) + LE(v.nsec, 4), LE(w.sec % TWO_64, 8) + LE(w.nsec, 4), LE(m, 2), LE(n, 2));
  }

  lemma PrefixedTellApart(a: Bytes, b: Bytes, x: Bytes, y: Bytes)
    requires |a| <= MAX_INT32 && |b| <= MAX_INT32
    ensures LengthPrefixed(a) + x == LengthPrefixed(b) + y <==> a == b && x == y
  {
    hide LE, LEValue, Pow256;
    PrefixedRoundTrip(a, x);
    PrefixedRoundTrip(b, y);
    if LengthPrefixed(a) + x == LengthPrefixed(b) + y {
      FixedWidth(LengthPrefixed(a), LengthPrefixed(b), x, y);
    }
  }

  /** Across types nothing keeps keys apart: two nulls placed differently can
      meet in one key, so a unique index may refuse a row it should take. */
  lemma NullsCollide()
    ensures var ones := 0x0101_0101_0101_0101; var a, b := [Null, Int(ones)], [Int(ones), Null];
      a != b && AllWellTyped(a) && AllWellTyped(b) && MixedKey(a) == MixedKey(b)
  {
    hide LE;
    var ones := 0x0101_0101_0101_0101;
    OnesDigits();
    assert KeyParts([Int(ones)]) == KeyPart(Int(ones)) + [] by {
      assert [Int(ones)][1..] == [];
    }
    assert KeyParts([Null]) == [1] by {
      assert [Null][1..] == [];
    }
    assert [Null, Int(ones)][1..] == [Int(ones)] && [Int(ones), Null][1..] == [Null];
  }

  /** In an index on one column null has a key of its own. */
  lemma NullStandsAlone(v: Value)
    requires WellTyped(v) && Storable(v)
    ensures MixedKey([v]) == MixedKey([Null]) <==> v.Null?
  {
    hide LE;
    OnePart(v);
    OnePart(Null);
    assert MixedKey([v])[1..] == KeyPart(v) && MixedKey([Null])[1..] == KeyPart(Null);
    PartLength(v);
  }

  lemma OnePart(v: Value)
    ensures KeyParts([v]) == KeyPart(v)
  {
    assert [v][1..] == [];
    assert KeyPart(v) + [] == KeyPart(v);
  }

  lemma PartLength(v: Value)
    ensures |KeyPart(v)| == 1 <==> v.Null?
  {
  }

  function Nulls(values: Row): nat {
    if values == [] then 0 else (if values[0].Null? then 1 else 0) + Nulls(values[1..])
  }

  /** In an index on numbers two rows with different numbers of nulls never
      share a key, wherever the nulls are. */
  lemma NullsBalance(a: Row, b: Row)
    requires |a| <= MAX_INT8 && |b| <= MAX_INT8
    requires forall v :: v in a || v in b ==> v.Null? || v.Int? || v.Real?
    ensures MixedKey(a) == MixedKey(b) ==> |a| == |b| && Nulls(a) == Nulls(b)
  {
    hide KeyParts, Nulls;
    NumbersLength(a);
    NumbersLength(b);
    assert MixedKey(a)[0] == |a| as byte && MixedKey(b)[0] == |b| as byte;
    assert MixedKey(a)[1..] == KeyParts(a) && MixedKey(b)[1..] == KeyParts(b);
  }

  lemma {:induction false} NumbersLength(values: Row)
    requires forall v :: v in values ==> v.Null? || v.Int? || v.Real?
    ensures |KeyParts(values)| + 7 * Nulls(values) == 8 * |values|
  {
    hide LE;
    if values != [] {
      assert values[0] in values;
      NumbersLength(values[1..]);
    }
  }

  /** Keys of the same beginning: the parts before position j are as long as the
      values tell them apart. */
  lemma {:induction false} FirstPartsApart(a: Row, b: Row, j: nat)
    requires j <= |a| && j <= |b| && SameTypes(a[..j], b[..j])
    requires AllWellTyped(a) && AllWellTyped(b) && AllStorable(a) && AllStorable(b)
    ensures KeyParts(a) == KeyParts(b) <==>
      (forall i :: 0 <= i < j ==> SameKeyPart(a[i], b[i])) && KeyParts(a[j..]) == KeyParts(b[j..])
    decreases j
  {
    hide KeyPart, WellTyped, Storable, SameKeyPart, SameType;
    if j == 0 {
      assert a[0..] == a && b[0..] == b;
    } else {
      SameTypesBehind(a[..j], b[..j]);
      assert a[..j][1..] == a[1..][..j - 1] && b[..j][1..] == b[1..][..j - 1];
      FirstPartsApart(a[1..], b[1..], j - 1);
      PartsTellApart(a[0], b[0], KeyParts(a[1..]), KeyParts(b[1..]));
      assert a[1..][j - 1..] == a[j..] && b[1..][j - 1..] == b[j..];
      AllFromFirst(a, b, j);
    }
  }

  lemma SameTypesBehind(a: Row, b: Row)
    requires a != [] && SameTypes(a, b)
    ensures SameType(a[0], b[0]) && SameTypes(a[1..], b[1..])
  {
    hide SameType;
  }

  lemma AllFromFirst(a: Row, b: Row, j: nat)
    requires 0 < j <= |a| && j <= |b|
    ensures (forall i :: 0 <= i < j ==> SameKeyPart(a[i], b[i])) <==>
      SameKeyPart(a[0], b[0]) && forall i :: 0 <= i < j - 1 ==> SameKeyPart(a[1..][i], b[1..][i])
  {
    hide SameKeyPart;
    if SameKeyPart(a[0], b[0]) && forall i :: 0 <= i < j - 1 ==> SameKeyPart(a[1..][i], b[1..][i]) {
      forall i | 0 <= i < j
        ensures SameKeyPart(a[i], b[i])
      {
        if i > 0 {
          assert SameKeyPart(a[1..][i - 1], b[1..][i - 1]);
        }
      }
    }
  }

  /** Two rows of one width where the first column that differs in type is null in
      one of them share a key exactly if the columns before it agree and the rest of
      the one row, behind the byte of the null, is encoded as the rest of the other.
      So a value there whose encoding does not start with that byte tells them
      apart, and so does any value in the last column. */
  lemma FirstNullDecides(a: Row, b: Row, j: nat)
    requires j < |a| == |b| <= MAX_INT8 && SameTypes(a[..j], b[..j]) && a[j].Null? && !b[j].Null?
    requires AllWellTyped(a) && AllWellTyped(b) && AllStorable(a) && AllStorable(b)
    ensures MixedKey(a) == MixedKey(b) <==>
      && (forall i :: 0 <= i < j ==> SameKeyPart(a[i], b[i]))
      && [1] + KeyParts(a[j + 1..]) == KeyPart(b[j]) + KeyParts(b[j + 1..])
    ensures KeyPart(b[j]) != [] && KeyPart(b[j])[0] != 1 ==> MixedKey(a) != MixedKey(b)
    ensures j + 1 == |a| ==> MixedKey(a) != MixedKey(b)
  {
    hide KeyPart, SameKeyPart, WellTyped, Storable, SameTypes;
    FirstPartsApart(a, b, j);
    assert MixedKey(a)[1..] == KeyParts(a) && MixedKey(b)[1..] == KeyParts(b);
    assert a[j..][1..] == a[j + 1..] && b[j..][1..] == b[j + 1..];
    NullPart(a[j]);
    PartLength(b[j]);
    if KeyPart(b[j]) != [] && KeyPart(b[j])[0] != 1 {
      assert ([1] + KeyParts(a[j + 1..]))[0] != (KeyPart(b[j]) + KeyParts(b[j + 1..]))[0];
    }
  }

  lemma NullPart(v: Value)
    ensures v.Null? ==> KeyPart(v) == [1]
  {
  }

  /** With a text column even rows with different numbers of nulls can meet. */
  lemma TextMeetsNull()
    ensures var a, b := [Null, Text([0, 0, 0, 0, 0, 0, 0])], [Int(1793), Text([])];
      AllWellTyped(a) && AllWellTyped(b) && Nulls(a) != Nulls(b) && MixedKey(a) == MixedKey(b)
  {
    hide LE;
    var a, b := [Null, Text([0, 0, 0, 0, 0, 0, 0])], [Int(1793), Text([])];
    assert a[1..] == [Text([0, 0, 0, 0, 0, 0, 0])] && b[1..] == [Text([])];
    OnePart(a[1]);
    OnePart(b[1]);
    SmallDigits();
    assert Nulls(a[1..]) == Nulls(a[1..][1..]) == 0 && Nulls(b[1..]) == Nulls(b[1..][1..]) == 0;
  }

  lemma SmallDigits()
    ensures LE(1793, 8) == [1, 7, 0, 0, 0, 0, 0, 0] && LE(7, 4) == [7, 0, 0, 0] && LE(0, 4) == [0, 0, 0, 0]
  {
    assert LE(0, 1) == [0];
    assert LE(0, 2) == [0, 0];
    assert LE(0, 3) == [0, 0, 0];
    assert LE(0, 5) == [0, 0, 0, 0, 0];
    assert LE(0, 6) == [0, 0, 0, 0, 0, 0];
    assert LE(7, 7) == [7, 0, 0, 0, 0, 0, 0];
  }

  lemma OnesDigits()
    ensures LE(0x0101_0101_0101_0101, 8) == [1, 1, 1, 1, 1, 1, 1, 1]
  {
    assert LE(0x01, 1) == [1];
    assert LE(0x0101, 2) == [1, 1];
    assert LE(0x01_0101, 3) == [1, 1, 1];
    assert LE(0x0101_0101, 4) == [1, 1, 1, 1];
    assert LE(0x01_0101_0101, 5) == [1, 1, 1, 1, 1];
    assert LE(0x0101_0101_0101, 6) == [1, 1, 1, 1, 1, 1];
    assert LE(0x01_0101_0101_0101, 7) == [1, 1, 1, 1, 1, 1, 1];
  }

  /* ---- computing a row's key ---- */

  /** The columns an index is on, and the ordinal of every column name; of two
      columns with one name the map knows the last. */
  datatype Columns = Columns(ordinals: map<string, nat>, on: seq<string>)

  predicate HasColumns(c: Columns, row: Row) {
    forall i :: 0 <= i < |c.on| ==> c.on[i] in c.ordinals && c.ordinals[c.on[i]] < |row|
  }

  function Projected(c: Columns, row: Row): (r: Row)
    requires HasColumns(c, row)
    ensures |r| == |c.on| && forall i :: 0 <= i < |r| ==> r[i] == row[c.ordinals[c.on[i]]]
  {
    seq(|c.on|, i requires 0 <= i < |c.on| => row[c.ordinals[c.on[i]]])
  }

  /** A row's key; None where a column is missing or a value cannot be encoded. */
  function KeyOf(c: Columns, row: Row): Option<Bytes> {
    if HasColumns(c, row) && |c.on| <= MAX_INT8 && AllStorable(Projected(c, row)) then Some(MixedKey(Projected(c, row)))
    else None
  }

  /** The key, or nothing where there is none. */
  function KeyBytes(c: Columns, row: Row): Bytes {
    match KeyOf(c, row) case None => [] case Some(key) => key
  }

  lemma KeyOfRowStored(c: Columns, row: Row)
    ensures KeyOf(c, RowAsStored(row)) == KeyOf(c, row)
  {
    hide KeyParts;
    if HasColumns(c, row) {
      assert Projected(c, RowAsStored(row)) == RowAsStored(Projected(c, row));
      KeyOfStored(Projected(c, row));
    }
  }

  /** Changing a column the index is not on keeps the row's key. */
  lemma KeyOfOtherColumn(c: Columns, row: Row, i: nat, v: Value)
    requires i < |row| && forall name :: name in c.on && name in c.ordinals ==> c.ordinals[name] != i
    ensures KeyOf(c, row[i := v]) == KeyOf(c, row)
  {
    hide KeyParts, AllStorable;
    if HasColumns(c, row) {
      forall k | 0 <= k < |c.on|
        ensures Projected(c, row[i := v])[k] == Projected(c, row)[k]
      {
        assert c.on[k] in c.on;
      }
      assert Projected(c, row[i := v]) == Projected(c, row);
    }
  }

  /** The row has all the columns of the index, with values that can be stored. */
  predicate Indexable(c: Columns, row: Row) {
    |c.on| <= 127 && forall i :: 0 <= i < |c.on| ==>
      && c.on[i] in c.ordinals && c.ordinals[c.on[i]] < |row|
      && WellTyped(row[c.ordinals[c.on[i]]]) && Storable(row[c.ordinals[c.on[i]]])
  }

  predicate SameTypesOn(c: Columns, a: Row, b: Row) {
    && Indexable(c, a) && Indexable(c, b)
    && (forall i :: 0 <= i < |c.on| ==> SameType(a[c.ordinals[c.on[i]]], b[c.ordinals[c.on[i]]]))
  }

  /** The rows agree in every column of the index, as far as keys tell. */
  predicate AgreeOn(c: Columns, a: Row, b: Row) {
    && Indexable(c, a) && Indexable(c, b)
    && (forall i :: 0 <= i < |c.on| ==> SameKeyPart(a[c.ordinals[c.on[i]]], b[c.ordinals[c.on[i]]]))
  }

  /** The values of a type that keys tell apart: all but truth values and UUIDs,
      times by instant and whole-minute zone offset. */
  lemma ToldApart(v: Value, w: Value)
    requires SameType(v, w)
    ensures v.Null? || v.Int? || v.Real? || v.Text? || v.Blob? ==> (SameKeyPart(v, w) <==> v == w)
    ensures v.Bool? || v.UUID? ==> SameKeyPart(v, w)
    ensures v.Time? && InMinutes(v.offset) && InMinutes(w.offset) ==> (SameKeyPart(v, w) <==> v == w)
  {
    if v.Time? && InMinutes(v.offset) && InMinutes(w.offset) {
      WholeMinutes(v.offset);
      WholeMinutes(w.offset);
    }
  }

  predicate InMinutes(offset: int) {
    offset % 60 == 0 && -0x8000 <= offset / 60 < 0x8000
  }

  lemma WholeMinutes(offset: int)
    requires InMinutes(offset)
    ensures 60 * ToInt16(Minutes(offset)) == offset
  {
  }

  /** Two rows get one key exactly if they agree in every column of the index. */
  lemma KeysOfColumns(c: Columns, a: Row, b: Row)
    requires SameTypesOn(c, a, b)
    ensures KeyOf(c, a).Some? && KeyOf(c, b).Some?
    ensures KeyOf(c, a) == KeyOf(c, b) <==> AgreeOn(c, a, b)
  {
    hide MixedKey, SameKeyPart, WellTyped, Storable, SameType;
    KeyIsMixed(c, a);
    KeyIsMixed(c, b);
    forall i | 0 <= i < |c.on|
      ensures SameType(Projected(c, a)[i], Projected(c, b)[i])
    {
    }
    KeysTellApart(Projected(c, a), Projected(c, b));
  }

  lemma KeyIsMixed(c: Columns, row: Row)
    requires Indexable(c, row)
    ensures HasColumns(c, row) && |Projected(c, row)| == |c.on| <= MAX_INT8
    ensures AllWellTyped(Projected(c, row)) && AllStorable(Projected(c, row))
    ensures KeyOf(c, row) == Some(MixedKey(Projected(c, row)))
  {
    hide WellTyped, Storable, MixedKey;
  }

  /** A row without one of the columns, or with a value in one that cannot be
      stored, has no key, nor has any row in an index on more than 127 columns. */
  lemma KeylessRows(c: Columns, row: Row)
    requires AllWellTyped(row)
    ensures KeyOf(c, row).Some? <==> Indexable(c, row)
  {
    hide WellTyped, Storable, MixedKey;
    if KeyOf(c, row).Some? {
      forall i | 0 <= i < |c.on|
        ensures Storable(row[c.ordinals[c.on[i]]])
      {
        assert Projected(c, row)[i] == row[c.ordinals[c.on[i]]];
      }
    }
    if Indexable(c, row) {
      KeyIsMixed(c, row);
    }
  }

  /* ---- an index that agrees with its table ---- */

  /** The key of a stored row. */
  function StoredKey(c: Columns, stored: Bytes): Option<Bytes> {
    var r := Decoded(stored);
    if r.RowOk? then KeyOf(c, r.row) else None
  }

  /** The index holds exactly the pairs of a row's key and the row's table key. */
  ghost predicate Agrees(table: map<Bytes, Bytes>, index: map<Bytes, Bytes>, c: Columns) {
    && (forall k :: k in table ==> StoredKey(c, table[k]).Some?)
    && (forall k :: k in table ==> var x := StoredKey(c, table[k]).value; x in index && index[x] == k)
    && (forall x :: x in index ==> index[x] in table && StoredKey(c, table[index[x]]) == Some(x))
  }

  /** No two rows of a table share a key in an index that agrees with it. */
  lemma NoSharedKeys(table: map<Bytes, Bytes>, index: map<Bytes, Bytes>, c: Columns, j: Bytes, k: Bytes)
    requires Agrees(table, index, c) && j in table && k in table
    ensures StoredKey(c, table[j]) == StoredKey(c, table[k]) ==> j == k
  {
  }

  /** A new row keeps agreement if and only if its key is not in the index yet:
      an index that is not unique overwrites the entry of the earlier row. */
  lemma AgreesInsert(table: map<Bytes, Bytes>, index: map<Bytes, Bytes>, c: Columns, k: Bytes, row: Bytes, x: Bytes)
    requires Agrees(table, index, c) && k !in table && StoredKey(c, row) == Some(x)
    ensures Agrees(table[k := row], index[x := k], c) <==> x !in index
  {
    hide StoredKey;
    var table', index' := table[k := row], index[x := k];
    if x in index {
      assert index[x] in table' && StoredKey(c, table'[index[x]]) == Some(x);
    }
  }

  /** Replacing a row moves its entry, if no other row has the new key. */
  lemma AgreesUpdate(table: map<Bytes, Bytes>, index: map<Bytes, Bytes>, c: Columns, k: Bytes, row: Bytes, was: Bytes,
                     x: Bytes)
    requires Agrees(table, index, c) && k in table && StoredKey(c, table[k]) == Some(was)
    requires StoredKey(c, row) == Some(x)
    ensures was in index && index[was] == k
    ensures Agrees(table[k := row], (index - {was})[x := k], c) <==> x !in index - {was}
  {
    hide StoredKey;
    var table', index' := table[k := row], (index - {was})[x := k];
    if x in index - {was} {
      assert index[x] in table' && index[x] != k;
    }
  }

  /** Replacing a row and leaving the index as it is keeps agreement if and only
      if the key stays the same. */
  lemma AgreesUnmoved(table: map<Bytes, Bytes>, index: map<Bytes, Bytes>, c: Columns, k: Bytes, row: Bytes)
    requires Agrees(table, index, c) && k in table
    ensures Agrees(table[k := row], index, c) <==> StoredKey(c, row) == StoredKey(c, table[k])
  {
    hide StoredKey;
    var table' := table[k := row];
    if Agrees(table', index, c) {
      assert k in table' && index[StoredKey(c, row).value] == k;
    }
  }

  /** A row the index does not know of ends agreement. */
  lemma DisagreesAppended(table: map<Bytes, Bytes>, index: map<Bytes, Bytes>, c: Columns, k: Bytes, row: Bytes)
    requires Agrees(table, index, c) && k !in table
    ensures !Agrees(table[k := row], index, c)
  {
    hide StoredKey;
    assert k in table[k := row];
  }

  /** A row whose values can all be stored has a key if it had one before a value
      was replaced. */
  lemma KeyStillThere(c: Columns, original: Row, updated: Row)
    requires |updated| == |original| && AllStorable(updated) && KeyOf(c, original).Some?
    ensures KeyOf(c, updated).Some?
  {
    hide MixedKey;
  }
}

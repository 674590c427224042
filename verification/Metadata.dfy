/** The database header at the start of block 0. */
module Metadata {
  import opened Options
  import opened Bytes
  import opened Files

  type Checksum = Bytes -> nat

  /** A checksum yields 32-bit values. */
  ghost predicate Is32Bit(crc: Checksum) {
    forall b :: crc(b) < TWO_32
  }

  const METADATA_LENGTH: nat := 100
  const MAGIC: Bytes := [0x64, 0x62, 0x6c, 0x6f, 0x63, 0x6b, 0x30, 0x31]
  const HEADER_PADDING: nat := 67

  datatype Metadata = Metadata(fileVersion: nat, schemaVersion: nat, pageSizePower: nat, numberOfPages: nat, token: int)

  /** What a database without a first block has. */
  const FRESH: Metadata := Metadata(1, 1, 13, 0, 0)

  predicate InRange(m: Metadata) {
    && m.fileVersion < TWO_32 && m.schemaVersion < TWO_32 && m.pageSizePower < 256 && m.numberOfPages < TWO_32
    && -TWO_63 <= m.token < TWO_63
  }

  function PageSize(m: Metadata): nat {
    Pow2(m.pageSizePower)
  }

  function Fields(m: Metadata): (b: Bytes)
    ensures |b| == 17
  {
    LE(m.schemaVersion % TWO_32, 4) + LE(m.pageSizePower % 256, 1)
    + LE(m.numberOfPages % TWO_32, 4) + LE(m.token % TWO_64, 8)
  }

  function Body(m: Metadata): (b: Bytes)
    ensures |b| == METADATA_LENGTH - 4
  {
    MAGIC + LE(m.fileVersion % TWO_32, 4) + Fields(m) + Zeros(HEADER_PADDING)
  }

  function Encoded(m: Metadata, crc: Checksum): (h: Bytes)
    ensures |h| == METADATA_LENGTH
  {
    Body(m) + LE(crc(Body(m)) % TWO_32, 4)
  }

  function FieldsOf(h: Bytes): Metadata
    requires |h| == METADATA_LENGTH
  {
    Metadata(LEValue(h[8..12]), LEValue(h[12..16]), LEValue(h[16..17]), LEValue(h[17..21]), ToInt64(LEValue(h[21..29])))
  }

  /** Refuses a wrong magic and a checksum that does not match the fields. */
  function Decoded(h: Bytes, crc: Checksum): Option<Metadata>
    requires |h| == METADATA_LENGTH
  {
    if h[..8] != MAGIC then None
    else if LEValue(h[96..100]) != crc(Body(FieldsOf(h))) then None
    else Some(FieldsOf(h))
  }

  lemma FieldsRead(h: Bytes, m: Metadata)
    requires |h| == METADATA_LENGTH && InRange(m)
    requires h[..8] == MAGIC && h[8..12] == LE(m.fileVersion, 4) && h[12..29] == Fields(m)
    ensures FieldsOf(h) == m
  {
    hide LE, LEValue, Pow256;
    Powers();
    LERoundTrip(m.fileVersion, 4);
    LERoundTrip(m.schemaVersion, 4);
    LERoundTrip(m.pageSizePower, 1);
    LERoundTrip(m.numberOfPages, 4);
    LERoundTrip(m.token % TWO_64, 8);
    var f := h[12..29];
    InnerSlice(h, 12, 17, 0, 4);
    InnerSlice(h, 12, 17, 4, 5);
    InnerSlice(h, 12, 17, 5, 9);
    InnerSlice(h, 12, 17, 9, 17);
    assert f[0..4] == LE(m.schemaVersion, 4) && f[4..5] == LE(m.pageSizePower, 1);
    assert f[5..9] == LE(m.numberOfPages, 4) && f[9..17] == LE(m.token % TWO_64, 8);
  }

  /** An encoded header decodes to its fields. */
  lemma MetadataRoundTrip(m: Metadata, crc: Checksum)
    requires InRange(m) && Is32Bit(crc)
    ensures Decoded(Encoded(m, crc), crc) == Some(m)
  {
    hide LE, LEValue, Pow256, Fields;
    Powers();
    var h := Encoded(m, crc);
    assert h[..8] == MAGIC && h[8..12] == LE(m.fileVersion, 4) && h[12..29] == Fields(m);
    FieldsRead(h, m);
    LERoundTrip(crc(Body(m)), 4);
    assert h[96..100] == LE(crc(Body(m)), 4);
  }

  lemma DecodedInRange(h: Bytes)
    requires |h| == METADATA_LENGTH
    ensures InRange(FieldsOf(h))
  {
    hide LEValue, Pow256;
    Powers();
    LEBound(h[8..12]);
    LEBound(h[12..16]);
    LEBound(h[16..17]);
    LEBound(h[17..21]);
    LEBound(h[21..29]);
  }

  /** The header's metadata with the file version counted up, modulo 2^32. */
  function NextVersion(m: Metadata): Metadata {
    m.(fileVersion := (m.fileVersion + 1) % TWO_32)
  }

  /** Counting the file version up rewrites a header in place: it stays readable,
      and only the version, the padding and the checksum are other bytes. */
  lemma VersionCountsUp(h: Bytes, crc: Checksum)
    requires |h| == METADATA_LENGTH && Is32Bit(crc) && Decoded(h, crc).Some?
    ensures var m := Decoded(h, crc).value; var h' := Encoded(NextVersion(m), crc);
      && Decoded(h', crc) == Some(NextVersion(m))
      && h'[..8] == h[..8] && h'[12..29] == h[12..29]
  {
    hide LE, LEValue, Pow256, Decoded, Fields;
    var m := FieldsOf(h);
    assert Decoded(h, crc) == Some(m) && h[..8] == MAGIC by {
      ReadFields(h, crc);
    }
    FieldBytes(h);
    DecodedInRange(h);
    MetadataRoundTrip(NextVersion(m), crc);
    assert Fields(NextVersion(m)) == Fields(m) by {
      SameFields(m, NextVersion(m));
    }
  }

  lemma ReadFields(h: Bytes, crc: Checksum)
    requires |h| == METADATA_LENGTH && Decoded(h, crc).Some?
    ensures Decoded(h, crc) == Some(FieldsOf(h)) && h[..8] == MAGIC
  {
  }

  lemma SameFields(m: Metadata, m': Metadata)
    requires m' == m.(fileVersion := m'.fileVersion)
    ensures Fields(m') == Fields(m)
  {
  }

  lemma FieldBytes(h: Bytes)
    requires |h| == METADATA_LENGTH
    ensures Fields(FieldsOf(h)) == h[12..29]
  {
    hide LE, LEValue, Pow256;
    DecodedInRange(h);
    LEOfValue(h[12..16]);
    LEOfValue(h[16..17]);
    LEOfValue(h[17..21]);
    LEOfValue(h[21..29]);
    Powers();
    LEBound(h[21..29]);
    assert h[12..29] == h[12..16] + h[16..17] + h[17..21] + h[21..29];
  }

  /** What a header reads as when only its first t bytes are those with the
      version counted up. */
  lemma MixedFields(h: Bytes, x: Bytes, t: nat, crc: Checksum)
    requires |h| == METADATA_LENGTH && Is32Bit(crc) && Decoded(h, crc).Some? && t <= METADATA_LENGTH
    requires x == Encoded(NextVersion(Decoded(h, crc).value), crc)[..t] + h[t..]
    ensures var m := Decoded(h, crc).value;
      && (t <= 8 ==> Decoded(x, crc) == Some(m))
      && (t == METADATA_LENGTH ==> Decoded(x, crc) == Some(NextVersion(m)))
      && (8 < t <= 96 ==> FieldsOf(x) == m.(fileVersion := FieldsOf(x).fileVersion) && FieldsOf(x) != m)
      && (8 < t <= 96 ==> (Decoded(x, crc).Some? <==> crc(Body(FieldsOf(x))) == crc(Body(m))))
      && (96 < t < METADATA_LENGTH ==> FieldsOf(x) == NextVersion(m))
      && (96 < t < METADATA_LENGTH ==> (Decoded(x, crc).Some? <==> crc(Body(FieldsOf(x))) == LEValue(x[96..100])))
  {
    hide LE, LEValue, Pow256, Body, Fields;
    var h' := Encoded(NextVersion(Decoded(h, crc).value), crc);
    ReadFields(h, crc);
    VersionCountsUp(h, crc);
    ReadFields(h', crc);
    SumOf(h, crc);
    MixedBytes(h, h', x, t);
    FirstByteDiffers(h, crc);
    FirstDigit(h[8..12]);
    FirstDigit(x[8..12]);
  }

  lemma SumOf(h: Bytes, crc: Checksum)
    requires |h| == METADATA_LENGTH && Decoded(h, crc).Some?
    ensures LEValue(h[96..100]) == crc(Body(FieldsOf(h)))
  {
  }

  lemma MixedBytes(h: Bytes, h': Bytes, x: Bytes, t: nat)
    requires |h| == |h'| == METADATA_LENGTH && t <= METADATA_LENGTH && x == h'[..t] + h[t..]
    requires h'[..8] == h[..8] && h'[12..29] == h[12..29]
    ensures x[..8] == h[..8] && x[12..16] == h[12..16] && x[16..17] == h[16..17] && x[17..21] == h[17..21]
    ensures x[21..29] == h[21..29]
    ensures t <= 8 ==> x[8..12] == h[8..12]
    ensures t <= 96 ==> x[96..100] == h[96..100]
    ensures 8 < t ==> x[8] == h'[8]
    ensures 12 <= t ==> x[8..12] == h'[8..12]
    ensures t == METADATA_LENGTH ==> x == h'
  {
    forall i | 0 <= i < 8 || 12 <= i < 29
      ensures x[i] == h[i]
    {
      if i < 8 {
        assert h'[i] == h'[..8][i] == h[..8][i];
      } else {
        assert h'[i] == h'[12..29][i - 12] == h[12..29][i - 12];
      }
    }
    SameSlice(x, h, 0, 8);
    SameSlice(x, h, 12, 16);
    SameSlice(x, h, 16, 17);
    SameSlice(x, h, 17, 21);
    SameSlice(x, h, 21, 29);
    if t <= 8 {
      SameSlice(x, h, 8, 12);
    }
    if t <= 96 {
      SameSlice(x, h, 96, 100);
    }
    if 12 <= t {
      SameSlice(x, h', 8, 12);
    }
  }

  lemma SameSlice(x: Bytes, y: Bytes, a: nat, b: nat)
    requires a <= b <= |x| && b <= |y| && forall i :: a <= i < b ==> x[i] == y[i]
    ensures x[a..b] == y[a..b]
  {
  }

  /** Counting up always changes the version's first byte. */
  lemma FirstByteDiffers(h: Bytes, crc: Checksum)
    requires |h| == METADATA_LENGTH && Is32Bit(crc) && Decoded(h, crc).Some?
    ensures Encoded(NextVersion(Decoded(h, crc).value), crc)[8] != h[8]
  {
    hide LEValue, Body, Pow256;
    var m := FieldsOf(h);
    var v := NextVersion(m).fileVersion;
    FirstDigit(h[8..12]);
    DecodedInRange(h);
    VersionAt(NextVersion(m), crc);
    assert LE(v, 4)[0] as int == v % 256;
  }

  lemma VersionAt(m: Metadata, crc: Checksum)
    requires m.fileVersion < TWO_32
    ensures Encoded(m, crc)[8..12] == LE(m.fileVersion, 4) && Encoded(m, crc)[8] == LE(m.fileVersion, 4)[0]
  {
    hide LE, Fields;
    assert Encoded(m, crc)[8..12] == LE(m.fileVersion, 4);
    assert Encoded(m, crc)[8] == Encoded(m, crc)[8..12][0];
  }

  lemma FirstDigit(b: Bytes)
    requires b != []
    ensures LEValue(b) % 256 == b[0] as int
  {
    var rest := LEValue(b[1..]);
    assert LEValue(b) == b[0] as int + 256 * rest;
    Remainder(b[0] as int, rest);
  }

  lemma Remainder(r: nat, q: nat)
    requires r < 256
    ensures (r + 256 * q) % 256 == r
  {
  }

  /* ---- which bytes these are ---- */

  /** Where the header keeps what. */
  lemma HeaderLayout(m: Metadata, crc: Checksum)
    requires InRange(m) && Is32Bit(crc)
    ensures var h := Encoded(m, crc);
      && |h| == 100
      && h[..8] == ['d' as int as byte, 'b' as int as byte, 'l' as int as byte, 'o' as int as byte,
                    'c' as int as byte, 'k' as int as byte, '0' as int as byte, '1' as int as byte]
      && LEValue(h[8..12]) == m.fileVersion && LEValue(h[12..16]) == m.schemaVersion
      && h[16] as int == m.pageSizePower && LEValue(h[17..21]) == m.numberOfPages
      && ToInt64(LEValue(h[21..29])) == m.token
      && (forall i :: 29 <= i < 96 ==> h[i] == 0)
      && LEValue(h[96..100]) == crc(h[..96])
  {
    hide LE, LEValue, Pow256, Fields, Decoded;
    var h := Encoded(m, crc);
    MetadataRoundTrip(m, crc);
    ReadFields(h, crc);
    SumOf(h, crc);
    OneByte(h[16..17]);
    assert Body(m) == h[..96];
    PaddingZero(m);
    assert forall i :: 29 <= i < 96 ==> h[i] == Body(m)[i];
  }

  lemma OneByte(b: Bytes)
    requires |b| == 1
    ensures LEValue(b) == b[0] as int
  {
    assert LEValue(b[1..]) == 0;
  }

  lemma PaddingZero(m: Metadata)
    ensures forall i :: 29 <= i < 96 ==> Body(m)[i] == 0
  {
  }

  /** The page size doubles with every power, from one byte for power 0; the default
      power 13 makes 8192 bytes. */
  lemma SizeDoubles(m: Metadata, m': Metadata)
    ensures m.pageSizePower == 0 ==> PageSize(m) == 1
    ensures m'.pageSizePower == m.pageSizePower + 1 ==> PageSize(m') == 2 * PageSize(m)
    ensures m.pageSizePower == 13 ==> PageSize(m) == 8192
  {
    PowerOf13();
  }

  lemma PowerOf13()
    ensures Pow2(13) == 8192
  {
    assert Pow2(4) == 16;
    assert Pow2(8) == 256;
    assert Pow2(12) == 4096;
  }

  /** Counting up adds one to the version's four bytes. */
  lemma VersionByOne(h: Bytes, crc: Checksum)
    requires |h| == METADATA_LENGTH && Is32Bit(crc) && Decoded(h, crc).Some?
    ensures LEValue(Encoded(NextVersion(Decoded(h, crc).value), crc)[8..12]) == (LEValue(h[8..12]) + 1) % TWO_32
  {
    hide LE, LEValue, Pow256, Encoded, Decoded;
    ReadFields(h, crc);
    DecodedInRange(h);
    HeaderLayout(NextVersion(FieldsOf(h)), crc);
  }

  /** What a database without a first block has: pages of 8192 bytes, first
      versions, no pages and no token. */
  lemma FreshDefaults()
    ensures InRange(FRESH) && PageSize(FRESH) == 8192
    ensures FRESH.fileVersion == 1 == FRESH.schemaVersion && FRESH.numberOfPages == 0 == FRESH.token
  {
    PowerOf13();
  }

  /** A header is readable exactly if it starts with the eight letters and its last
      four bytes are the checksum of its first 29 followed by zeros. */
  lemma ReadableExactly(h: Bytes, crc: Checksum)
    requires |h| == 100
    ensures Decoded(h, crc).Some? <==>
      h[..8] == Encoded(FRESH, crc)[..8] && LEValue(h[96..100]) == crc(h[..29] + Zeros(67))
  {
    hide LE, LEValue, Fields;
    assert Encoded(FRESH, crc)[..8] == MAGIC;
    if h[..8] == MAGIC {
      FieldBytes(h);
      DecodedInRange(h);
      LEOfValue(h[8..12]);
      Powers();
      LEBound(h[8..12]);
      assert h[..29] == h[..8] + h[8..12] + h[12..29];
      assert Body(FieldsOf(h)) == h[..29] + Zeros(67);
    }
  }
}

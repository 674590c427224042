/** Byte strings, fixed-width integers and the key order used across the tree. */
module Bytes {
  newtype byte = x: int | 0 <= x < 256
  type Bytes = seq<byte>

  const TWO_16: int := 0x1_0000
  const TWO_32: int := 0x1_0000_0000
  const TWO_63: int := 0x8000_0000_0000_0000
  const TWO_64: int := 0x1_0000_0000_0000_0000

  /** Byte-lexicographic comparison, as Go's bytes.Compare. */
  function KeyCompare(a: Bytes, b: Bytes): (c: int)
    ensures -1 <= c <= 1
  {
    if a == [] then (if b == [] then 0 else -1)
    else if b == [] then 1
    else if a[0] < b[0] then -1
    else if a[0] > b[0] then 1
    else KeyCompare(a[1..], b[1..])
  }

  /** An order-preserving, injective position of every key in [0, 1): it turns
      byte-lexicographic order into the order of the reals. */
  ghost function Rank(k: Bytes): (r: real)
    ensures 0.0 <= r < 1.0
  {
    if k == [] then 0.0 else ((k[0] as int) as real + 1.0 + Rank(k[1..])) / 257.0
  }

  lemma {:induction false} CompareIsRank(a: Bytes, b: Bytes)
    ensures KeyCompare(a, b) < 0 <==> Rank(a) < Rank(b)
    ensures KeyCompare(a, b) == 0 <==> a == b
    ensures Rank(a) == Rank(b) <==> a == b
  {
    if a != [] && b != [] {
      CompareIsRank(a[1..], b[1..]);
      assert a == [a[0]] + a[1..] && b == [b[0]] + b[1..];
    }
  }

  /* ---- fixed-width integers ---- */

  lemma InnerSlice(s: Bytes, at: nat, n: nat, a: nat, b: nat)
    requires a <= b <= n && at + n <= |s|
    ensures s[at..at + n][a..b] == s[at + a..at + b]
  {
    assert forall k :: at + a <= k < at + b ==> s[at..at + n][k - at] == s[k];
  }

  function Pow256(w: nat): (p: nat)
    ensures 1 <= p
  {
    if w == 0 then 1 else 256 * Pow256(w - 1)
  }

  function Pow2(n: nat): (p: nat)
    ensures 1 <= p
  {
    if n == 0 then 1 else 2 * Pow2(n - 1)
  }

  /** Big-endian digits of n, w bytes wide. */
  function BE(n: nat, w: nat): (b: Bytes)
    ensures |b| == w
  {
    if w == 0 then [] else BE(n / 256, w - 1) + [(n % 256) as byte]
  }

  function BEValue(b: Bytes): nat {
    if b == [] then 0 else 256 * BEValue(b[..|b| - 1]) + b[|b| - 1] as int
  }

  /** Little-endian digits of n, w bytes wide. */
  function LE(n: nat, w: nat): (b: Bytes)
    ensures |b| == w
  {
    if w == 0 then [] else [(n % 256) as byte] + LE(n / 256, w - 1)
  }

  function LEValue(b: Bytes): nat {
    if b == [] then 0 else b[0] as int + 256 * LEValue(b[1..])
  }

  lemma {:induction false} BERoundTrip(n: nat, w: nat)
    requires n < Pow256(w)
    ensures BEValue(BE(n, w)) == n
  {
    if w > 0 {
      BERoundTrip(n / 256, w - 1);
      assert BE(n, w)[..w - 1] == BE(n / 256, w - 1);
    }
  }

  lemma {:induction false} LERoundTrip(n: nat, w: nat)
    requires n < Pow256(w)
    ensures LEValue(LE(n, w)) == n
  {
    if w > 0 {
      LERoundTrip(n / 256, w - 1);
      assert LE(n, w)[1..] == LE(n / 256, w - 1);
    }
  }

  lemma {:induction false} LEBound(b: Bytes)
    ensures LEValue(b) < Pow256(|b|)
  {
    if b != [] {
      LEBound(b[1..]);
    }
  }

  lemma {:induction false} BEBound(b: Bytes)
    ensures BEValue(b) < Pow256(|b|)
  {
    if b != [] {
      BEBound(b[..|b| - 1]);
    }
  }

  lemma Powers()
    ensures Pow256(1) == 256 && Pow256(2) == TWO_16 && Pow256(4) == TWO_32 && Pow256(8) == TWO_64
  {
    assert Pow256(3) == 0x100_0000;
    assert Pow256(5) == 0x100_0000_0000 && Pow256(6) == 0x1_0000_0000_0000 && Pow256(7) == 0x100_0000_0000_0000;
  }

  lemma RankUnfold(x: Bytes, s: Bytes)
    requires x != []
    ensures Rank(x + s) == ((x[0] as int) as real + 1.0 + Rank(x[1..] + s)) / 257.0
  {
    assert (x + s)[1..] == x[1..] + s;
  }

  lemma {:induction false} RankDiffers(x: Bytes, y: Bytes, s: Bytes, t: Bytes)
    requires |x| == |y| && Rank(x) < Rank(y)
    ensures Rank(x + s) < Rank(y + t)
  {
    if x != [] {
      RankUnfold(x, s);
      RankUnfold(y, t);
      if x[0] == y[0] {
        RankDiffers(x[1..], y[1..], s, t);
      }
    }
  }

  lemma {:induction false} RankAfter(x: Bytes, s: Bytes, t: Bytes)
    requires Rank(s) < Rank(t)
    ensures Rank(x + s) < Rank(x + t)
  {
    if x == [] {
      assert x + s == s && x + t == t;
    } else {
      RankUnfold(x, s);
      RankUnfold(x, t);
      RankAfter(x[1..], s, t);
    }
  }

  /** Big-endian digits of one width compare as the numbers do. */
  lemma {:induction false} BEOrder(a: nat, b: nat, w: nat)
    requires a < b < Pow256(w)
    ensures Rank(BE(a, w)) < Rank(BE(b, w))
  {
    if w > 0 {
      var x, y := BE(a / 256, w - 1), BE(b / 256, w - 1);
      var s, t := [(a % 256) as byte], [(b % 256) as byte];
      if a / 256 < b / 256 {
        BEOrder(a / 256, b / 256, w - 1);
        RankDiffers(x, y, s, t);
      } else {
        assert Rank(s) < Rank(t) by {
          assert s[1..] == [] && t[1..] == [];
        }
        RankAfter(x, s, t);
      }
    }
  }

  /** Two's complement reading of 64 bits. */
  function ToInt64(u: int): int {
    var m := u % TWO_64;
    if m < TWO_63 then m else m - TWO_64
  }

  /** A row's key: its ID as eight big-endian bytes. */
  function EncodeKey(id: int): (key: Bytes)
    ensures |key| == 8
  {
    BE(id % TWO_64, 8)
  }

  function DecodeKey(buf: Bytes): int
    requires 8 <= |buf|
  {
    ToInt64(BEValue(buf[..8]))
  }

  lemma KeyRoundTrip(id: int)
    requires -TWO_63 <= id < TWO_63
    ensures DecodeKey(EncodeKey(id)) == id
  {
    hide BE, BEValue, Pow256;
    Powers();
    BERoundTrip(id % TWO_64, 8);
    assert EncodeKey(id)[..8] == EncodeKey(id);
  }

  lemma KeyOrder(a: int, b: int)
    requires 0 <= a < TWO_63 && 0 <= b < TWO_63
    ensures Rank(EncodeKey(a)) < Rank(EncodeKey(b)) <==> a < b
    ensures EncodeKey(a) == EncodeKey(b) <==> a == b
  {
    hide BE, Rank, Pow256;
    Powers();
    if a < b {
      BEOrder(a, b, 8);
    } else if b < a {
      BEOrder(b, a, 8);
    }
  }

  lemma {:induction false} BEOfValue(b: Bytes)
    ensures BE(BEValue(b), |b|) == b
  {
    if b != [] {
      BEOfValue(b[..|b| - 1]);
      assert b == b[..|b| - 1] + [b[|b| - 1]];
    }
  }

  lemma {:induction false} BEAppend(a: Bytes, b: Bytes)
    ensures BEValue(a + b) == BEValue(a) * Pow256(|b|) + BEValue(b)
  {
    if b == [] {
      assert a + b == a;
    } else {
      var n := |b| - 1;
      BEAppend(a, b[..n]);
      assert (a + b)[..|a + b| - 1] == a + b[..n];
      assert BEValue(a + b) == 256 * BEValue(a + b[..n]) + b[n] as int;
      Distribute(BEValue(a), Pow256(n), BEValue(b[..n]), b[n] as int);
    }
  }

  lemma Distribute(x: nat, p: nat, y: nat, z: int)
    ensures 256 * (x * p + y) + z == x * (256 * p) + (256 * y + z)
  {
  }

  /** The last bytes are the value modulo their power. */
  lemma BELow(b: Bytes, k: nat)
    requires k <= |b|
    ensures BEValue(b) % Pow256(k) == BEValue(b[|b| - k..])
  {
    hide BEValue, Pow256;
    var hi, lo := b[..|b| - k], b[|b| - k..];
    assert b == hi + lo;
    BEAppend(hi, lo);
    BEBound(lo);
    ModOfSum(BEValue(hi), Pow256(k), BEValue(lo));
  }

  lemma ModOfSum(q: nat, d: nat, r: nat)
    requires r < d
    ensures (q * d + r) % d == r
  {
    var x := q * d + r;
    var k := x / d - q;
    assert x == (x / d) * d + x % d;
    assert k * d == (x / d) * d - q * d;
    Multiple(k, d);
  }

  lemma Multiple(k: int, d: nat)
    ensures k > 0 ==> d <= k * d
    ensures k < 0 ==> k * d + d <= 0
  {
    if k > 0 {
      TimesMono(1, k, d);
    } else if k < 0 {
      TimesMono(1, -k, d);
      assert k * d == -(-k * d);
    }
  }

  lemma {:induction false} TimesMono(a: nat, b: nat, d: nat)
    requires a <= b
    ensures a * d <= b * d
  {
    if a < b {
      TimesMono(a, b - 1, d);
      assert b * d == (b - 1) * d + d;
    }
  }

  lemma {:induction false} BEOfZero(w: nat)
    ensures forall i :: 0 <= i < w ==> BE(0, w)[i] == 0
  {
    if w > 0 {
      BEOfZero(w - 1);
    }
  }

  lemma {:induction false} ZeroBytes(b: Bytes)
    ensures BEValue(b) == 0 <==> forall i :: 0 <= i < |b| ==> b[i] == 0
  {
    if b != [] {
      ZeroBytes(b[..|b| - 1]);
    }
  }

  lemma {:induction false} LEOfValue(b: Bytes)
    ensures LE(LEValue(b), |b|) == b
  {
    if b != [] {
      var d, v := b[0] as int, LEValue(b[1..]);
      assert (d + 256 * v) % 256 == d && (d + 256 * v) / 256 == v;
      LEOfValue(b[1..]);
      assert LE(d + 256 * v, |b|) == [b[0]] + LE(v, |b| - 1);
      assert b == [b[0]] + b[1..];
    }
  }

  /** Every eight-byte key encodes the integer it decodes to. */
  lemma KeyOfDecoded(key: Bytes)
    requires |key| == 8
    ensures EncodeKey(DecodeKey(key)) == key
  {
    hide BE, BEValue, Pow256;
    Powers();
    assert key[..8] == key;
    BEBound(key);
    BEOfValue(key);
  }

  lemma {:induction false} HighestRank(k: Bytes, top: Bytes)
    requires |k| == |top| && forall i :: 0 <= i < |top| ==> top[i] == 0xff
    ensures Rank(k) <= Rank(top)
  {
    if k != [] {
      HighestRank(k[1..], top[1..]);
    }
  }

  /** Only the empty key comes before the one-byte key {0}. */
  lemma AboveZeroKey(k: Bytes)
    requires k != []
    ensures Rank([0]) <= Rank(k)
  {
    assert [0 as byte][1..] == [];
  }

  /* ---- which bytes these are ---- */

  /** Keys are in byte-lexicographic order: the first byte that differs decides, and
      a key comes before all that it begins. */
  ghost predicate Precedes(a: Bytes, b: Bytes) {
    exists i :: 0 <= i < |b| && i <= |a| && a[..i] == b[..i] && (i == |a| || a[i] < b[i])
  }

  lemma RankIsLexicographic(a: Bytes, b: Bytes)
    ensures Rank(a) < Rank(b) <==> Precedes(a, b)
  {
    hide Rank, KeyCompare, Precedes;
    CompareIsRank(a, b);
    CompareIsLexicographic(a, b);
  }

  lemma {:induction false} CompareIsLexicographic(a: Bytes, b: Bytes)
    ensures KeyCompare(a, b) < 0 <==> Precedes(a, b)
  {
    hide Precedes;
    PrecedesFirst(a, b);
    if a != [] && b != [] && a[0] == b[0] {
      CompareIsLexicographic(a[1..], b[1..]);
    }
  }

  lemma PrecedesFirst(a: Bytes, b: Bytes)
    ensures b == [] ==> !Precedes(a, b)
    ensures a == [] && b != [] ==> Precedes(a, b)
    ensures a != [] && b != [] && a[0] != b[0] ==> (Precedes(a, b) <==> a[0] < b[0])
    ensures a != [] && b != [] && a[0] == b[0] ==> (Precedes(a, b) <==> Precedes(a[1..], b[1..]))
  {
    assert a[..0] == [];
    assert |b| > 0 ==> a[..0] == b[..0];
    if a != [] && b != [] {
      forall i | 0 < i < |b| && i <= |a|
        ensures a[..i] == b[..i] <==> a[0] == b[0] && a[1..][..i - 1] == b[1..][..i - 1]
      {
        PrefixParts(a, b, i);
      }
      forall i | 0 <= i < |b[1..]| && i <= |a[1..]|
        ensures a[..i + 1] == b[..i + 1] <==> a[0] == b[0] && a[1..][..i] == b[1..][..i]
      {
        PrefixParts(a, b, i + 1);
      }
      if a[0] == b[0] && Precedes(a[1..], b[1..]) {
        var i :| 0 <= i < |b[1..]| && i <= |a[1..]| && a[1..][..i] == b[1..][..i] && (i == |a[1..]| ||
            a[1..][i] < b[1..][i]);
        assert a[..i + 1] == b[..i + 1] && (i + 1 == |a| || a[i + 1] < b[i + 1]);
      }
    }
  }

  lemma PrefixParts(a: Bytes, b: Bytes, i: nat)
    requires 0 < i <= |a| && i <= |b|
    ensures a[..i] == b[..i] <==> a[0] == b[0] && a[1..][..i - 1] == b[1..][..i - 1]
  {
    assert a[..i] == [a[0]] + a[1..][..i - 1] && b[..i] == [b[0]] + b[1..][..i - 1];
  }

  lemma DividedTwice(n: nat, p: nat)
    requires 0 < p
    ensures n / 256 / p == n / (256 * p)
  {
    var q := n / 256 / p;
    var r := n / 256 - q * p;
    assert n == 256 * (q * p + r) + n % 256 && 0 <= r < p;
    assert 256 * (q * p) == (256 * p) * q;
    assert n == (256 * p) * q + (256 * r + n % 256);
    assert 256 * r + n % 256 <= 256 * (p - 1) + 255;
    QuotientIs(n, 256 * p, q, 256 * r + n % 256);
  }

  lemma QuotientIs(n: nat, d: nat, q: nat, r: nat)
    requires 0 < d && n == d * q + r && r < d
    ensures n / d == q
  {
    if n / d < q {
      StepUp(d, n / d, q);
    } else if q < n / d {
      StepUp(d, q, n / d);
    }
  }

  lemma {:induction false} StepUp(d: nat, x: nat, y: nat)
    requires x < y
    ensures d * x + d <= d * y
  {
    assert d * y == d * (y - 1) + d;
    if x < y - 1 {
      StepUp(d, x, y - 1);
    }
  }

  /** Byte i of a little-endian number is its digit worth 256^i. */
  lemma {:induction false} LEDigit(n: nat, w: nat, i: nat)
    requires i < w
    ensures LE(n, w)[i] as int == n / Pow256(i) % 256
  {
    if i > 0 {
      LEDigit(n / 256, w - 1, i - 1);
      DividedTwice(n, Pow256(i - 1));
    }
  }

  /** A big-endian number has the same digits in the other order. */
  lemma {:induction false} BEIsReversed(n: nat, w: nat, i: nat)
    requires i < w
    ensures BE(n, w)[i] == LE(n, w)[w - 1 - i]
  {
    if i < w - 1 {
      BEIsReversed(n / 256, w - 1, i);
    }
  }

  /** 64-bit integers wrap around. */
  lemma Int64Wraps(u: int)
    ensures -TWO_63 <= ToInt64(u) < TWO_63 && (ToInt64(u) - u) % TWO_64 == 0
    ensures -TWO_63 <= u < TWO_63 ==> ToInt64(u) == u
  {
  }
}

/** Appending fixed-width and length-prefixed values to a byte buffer, and
    reading them back with bounds checks. */
module Codec {
  import opened Bytes

  const MAX_INT8: int := 0x7f
  const MAX_INT16: int := 0x7fff
  const MAX_INT32: int := 0x7fff_ffff

  /** Two's complement reading of 16 bits. */
  function ToInt16(u: int): (i: int)
    ensures -0x8000 <= i <= MAX_INT16 && (i - u) % TWO_16 == 0
  {
    var m := u % TWO_16;
    if m <= MAX_INT16 then m else m - TWO_16
  }

  /** A 32-bit length, then the bytes. */
  function LengthPrefixed(b: Bytes): Bytes {
    LE(|b| % TWO_32, 4) + b
  }

  class Encoder {
    var backing: Bytes

    constructor ()
      ensures backing == []
    {
      backing := [];
    }

    method PutUint8(val: byte)
      modifies this
      ensures backing == old(backing) + [val]
    {
      backing := backing + [val];
    }

    method PutBool(val: bool)
      modifies this
      ensures backing == old(backing) + [if val then 1 else 0]
    {
      if val {
        PutUint8(1);
      } else {
        PutUint8(0);
      }
    }

    method PutUint16(val: int)
      modifies this
      ensures backing == old(backing) + LE(val % TWO_16, 2)
    {
      backing := backing + LE(val % TWO_16, 2);
    }

    method PutUint32(val: int)
      modifies this
      ensures backing == old(backing) + LE(val % TWO_32, 4)
    {
      backing := backing + LE(val % TWO_32, 4);
    }

    method PutUint64(val: int)
      modifies this
      ensures backing == old(backing) + LE(val % TWO_64, 8)
    {
      backing := backing + LE(val % TWO_64, 8);
    }

    /** Fails (the original panics) above the signed range. */
    method PutAsUint8(val: nat) returns (ok: bool)
      modifies this
      ensures ok <==> val <= MAX_INT8
      ensures backing == old(backing) + if val <= MAX_INT8 then [val as byte] else []
    {
      if val > MAX_INT8 {
        return false;
      }
      PutUint8(val as byte);
      ok := true;
    }

    method PutAsUint16(val: nat) returns (ok: bool)
      modifies this
      ensures ok <==> val <= MAX_INT16
      ensures backing == old(backing) + if ok then LE(val, 2) else []
    {
      if val > MAX_INT16 {
        return false;
      }
      PutUint16(val);
      ok := true;
    }

    method PutAsUint32(val: nat) returns (ok: bool)
      modifies this
      ensures ok <==> val <= MAX_INT32
      ensures backing == old(backing) + if ok then LE(val, 4) else []
    {
      hide LE;
      if val > MAX_INT32 {
        return false;
      }
      PutUint32(val);
      ok := true;
    }

    method PutBytes(b: Bytes)
      modifies this
      ensures backing == old(backing) + b
    {
      backing := backing + b;
    }

    method PutBytesWithLength(b: Bytes) returns (ok: bool)
      modifies this
      ensures ok <==> |b| <= MAX_INT32
      ensures ok ==> backing == old(backing) + LengthPrefixed(b)
    {
      hide LE;
      ok := PutAsUint32(|b|);
      if ok {
        PutBytes(b);
      }
    }
  }

  class Decoder {
    const backing: Bytes
    var pos: nat

    constructor (buf: Bytes)
      ensures backing == buf && pos == 0
    {
      backing, pos := buf, 0;
    }

    /** What has not been read yet. */
    ghost function Rest(): Bytes
      reads this
      requires pos <= |backing|
    {
      backing[pos..]
    }

    method GetUint8() returns (val: byte, ok: bool)
      requires pos <= |backing|
      modifies this`pos
      ensures pos <= |backing| && (ok <==> 1 <= |old(Rest())|)
      ensures if ok then val == old(Rest())[0] && Rest() == old(Rest())[1..] else pos == old(pos)
    {
      ok := pos + 1 <= |backing|;
      val := 0;
      if ok {
        val, pos := backing[pos], pos + 1;
      }
    }

    method GetBytes(n: nat) returns (b: Bytes, ok: bool)
      requires pos <= |backing|
      modifies this`pos
      ensures pos <= |backing| && (ok <==> n <= |old(Rest())|)
      ensures if ok then b == old(Rest())[..n] && Rest() == old(Rest())[n..] else pos == old(pos)
    {
      ok := pos + n <= |backing|;
      b := [];
      if ok {
        b, pos := backing[pos..pos + n], pos + n;
      }
    }

    method GetUint16() returns (val: nat, ok: bool)
      requires pos <= |backing|
      modifies this`pos
      ensures pos <= |backing| && (ok <==> 2 <= |old(Rest())|)
      ensures if ok then val == LEValue(old(Rest())[..2]) && Rest() == old(Rest())[2..] else pos == old(pos)
    {
      var b, enough := GetBytes(2);
      val, ok := LEValue(b), enough;
    }

    method GetUint32() returns (val: nat, ok: bool)
      requires pos <= |backing|
      modifies this`pos
      ensures pos <= |backing| && (ok <==> 4 <= |old(Rest())|)
      ensures if ok then val == LEValue(old(Rest())[..4]) && Rest() == old(Rest())[4..] else pos == old(pos)
    {
      var b, enough := GetBytes(4);
      val, ok := LEValue(b), enough;
    }

    method GetUint64() returns (val: nat, ok: bool)
      requires pos <= |backing|
      modifies this`pos
      ensures pos <= |backing| && (ok <==> 8 <= |old(Rest())|)
      ensures if ok then val == LEValue(old(Rest())[..8]) && Rest() == old(Rest())[8..] else pos == old(pos)
    {
      var b, enough := GetBytes(8);
      val, ok := LEValue(b), enough;
    }

    method GetBytesWithLength() returns (b: Bytes, ok: bool)
      requires pos <= |backing|
      modifies this`pos
      ensures pos <= |backing|
      ensures ok <==> 4 <= |old(Rest())| && 4 + LEValue(old(Rest())[..4]) <= |old(Rest())|
      ensures ok ==> var n := LEValue(old(Rest())[..4]); b == old(Rest())[4..4 + n] && Rest() == old(Rest())[4 + n..]
    {
      b := [];
      var n, enough := GetUint32();
      if !enough {
        return b, false;
      }
      ghost var rest := Rest();
      b, ok := GetBytes(n);
    }
  }

  /** Lengths are taken while they fit the signed integers of their width. */
  lemma SignedRanges()
    ensures 2 * (MAX_INT8 + 1) == Pow256(1) && 2 * (MAX_INT16 + 1) == Pow256(2) && 2 * (MAX_INT32 + 1) == Pow256(4)
    ensures 2 * TWO_63 == Pow256(8)
  {
    Powers();
  }
}

/** Moving log frames into the main file, and why no reader notices. */
module Checkpointing {
  import opened Options
  import opened Bytes
  import opened Files
  import opened Metadata
  import opened WalLog
  import opened WalState

  /* ---- the file version ---- */

  predicate HeaderReadable(main: Bytes, crc: Checksum) {
    METADATA_LENGTH <= |main| && Decoded(main[..METADATA_LENGTH], crc).Some?
  }

  /** The main file after the version bump; an unreadable header is left alone. */
  function Bumped(main: Bytes, crc: Checksum): (r: Bytes)
    ensures |r| == |main|
  {
    if !HeaderReadable(main, crc) then main
    else Written(main, 0, Encoded(NextVersion(Decoded(main[..METADATA_LENGTH], crc).value), crc))
  }

  /* ---- comparing what readers see ---- */

  /** Block 0 without its file version, header padding and header checksum. */
  function Masked(buf: Bytes): Bytes {
    if |buf| < METADATA_LENGTH then buf else buf[..8] + Zeros(4) + buf[12..29] + Zeros(71) + buf[METADATA_LENGTH..]
  }

  predicate AllZero(buf: Bytes) {
    forall i :: 0 <= i < |buf| ==> buf[i] == 0
  }

  /** A block as a transaction tells it from others: an all-zero block is an
      empty one, but block 0, which begins with the header, is compared without
      its version and checksum and is not the same empty as absent. */
  function Norm(b: BlockID, r: Option<Bytes>): Option<Bytes> {
    match r
    case None => None
    case Some(buf) => if b == 0 then Some(Masked(buf)) else if AllZero(buf) then None else Some(buf)
  }

  /** What main has of block b, with zeros for what it has not. */
  function Padded(main: Bytes, bs: nat, b: nat): (buf: Bytes)
    ensures |buf| == bs
    ensures forall i :: 0 <= i < bs ==> buf[i] == if Off(b, bs) + i < |main| then main[Off(b, bs) + i] else 0
  {
    seq(bs, i requires 0 <= i => if Off(b, bs) + i < |main| then main[Off(b, bs) + i] else 0)
  }

  ghost predicate Passes(order: seq<BlockID>, b: BlockID) {
    exists i :: 0 <= i < |order| && b < order[i]
  }

  /** What becomes of an absent block once a frame was copied past it: main has
      grown over it, so it reads as what there was of it and zeros. */
  ghost function Regrown(main: Bytes, bs: nat, order: seq<BlockID>, b: BlockID, r: Option<Bytes>): Option<Bytes> {
    if r == None && 0 <= b && Passes(order, b) then Some(Padded(main, bs, b)) else r
  }

  /** Where no block is torn only block 0 shows it. */
  function Filled(b: BlockID, r: Option<Bytes>, bs: nat, moves: bool): Option<Bytes> {
    if b == 0 && moves && r == None then Some(Zeros(bs)) else r
  }

  lemma FilledNorm(b: BlockID, r: Option<Bytes>, r': Option<Bytes>, bs: nat, moves: bool)
    requires Norm(b, r) == Norm(b, r')
    ensures Norm(b, Filled(b, r, bs, moves)) == Norm(b, Filled(b, r', bs, moves))
  {
    hide Masked, AllZero;
  }

  lemma BumpUnseen(main: Bytes, bs: nat, crc: Checksum, b: BlockID)
    requires METADATA_LENGTH <= bs && Is32Bit(crc)
    ensures Norm(b, MainRead(Bumped(main, crc), bs, b)) == Norm(b, MainRead(main, bs, b))
  {
    hide Masked, AllZero;
    if b > 0 {
      BumpRaw(main, bs, crc, b);
    } else if b == 0 && bs <= |main| && HeaderReadable(main, crc) {
      BumpMasked(main, bs, crc);
    }
  }

  lemma BumpRaw(main: Bytes, bs: nat, crc: Checksum, b: BlockID)
    requires METADATA_LENGTH <= bs && 0 < b
    ensures MainRead(Bumped(main, crc), bs, b) == MainRead(main, bs, b)
  {
    hide Decoded, Encoded;
    OffMono(0, b, bs);
    if HeaderReadable(main, crc) && Off(b, bs) + bs <= |main| {
      var h := Encoded(NextVersion(Decoded(main[..METADATA_LENGTH], crc).value), crc);
      WrittenElsewhere(main, 0, h, Off(b, bs), Off(b, bs) + bs);
    }
  }

  lemma BumpMasked(main: Bytes, bs: nat, crc: Checksum)
    requires METADATA_LENGTH <= bs <= |main| && Is32Bit(crc) && HeaderReadable(main, crc)
    ensures Masked(Bumped(main, crc)[0..bs]) == Masked(main[0..bs])
  {
    hide Decoded, Encoded;
    var h := main[..METADATA_LENGTH];
    VersionCountsUp(h, crc);
    var h' := Encoded(NextVersion(Decoded(h, crc).value), crc);
    var x, y := Bumped(main, crc)[0..bs], main[0..bs];
    assert x[..8] == h'[..8] && y[..8] == h[..8];
    assert x[12..29] == h'[12..29] && y[12..29] == h[12..29];
    assert x[METADATA_LENGTH..] == y[METADATA_LENGTH..];
  }

  /** The main file when only t bytes of the new header were written. */
  function BumpTorn(main: Bytes, t: nat, crc: Checksum): (r: Bytes)
    requires t <= METADATA_LENGTH
    ensures |r| == |main|
  {
    if !HeaderReadable(main, crc) then main
    else Written(main, 0, Encoded(NextVersion(Decoded(main[..METADATA_LENGTH], crc).value), crc)[..t])
  }

  /** Its first bytes are those of the new header, then those of the old one. */
  lemma TornHeaderBytes(main: Bytes, t: nat, crc: Checksum)
    requires t <= METADATA_LENGTH && HeaderReadable(main, crc)
    ensures var h := main[..METADATA_LENGTH]; var h' := Encoded(NextVersion(Decoded(h, crc).value), crc);
      && BumpTorn(main, t, crc)[..METADATA_LENGTH] == h'[..t] + h[t..]
      && BumpTorn(main, t, crc)[METADATA_LENGTH..] == main[METADATA_LENGTH..]
  {
    hide Decoded, Encoded;
    var h' := Encoded(NextVersion(Decoded(main[..METADATA_LENGTH], crc).value), crc);
    WrittenInto(main, h', t, METADATA_LENGTH);
  }

  lemma WrittenInto(main: Bytes, x: Bytes, t: nat, n: nat)
    requires t <= |x| && t <= n <= |main|
    ensures Written(main, 0, x[..t])[..n] == x[..t] + main[..n][t..]
    ensures Written(main, 0, x[..t])[n..] == main[n..]
  {
    var main' := Written(main, 0, x[..t]);
    assert main'[..n] == x[..t] + main[..n][t..];
    assert main'[n..] == main[n..];
  }

  lemma BumpTornUnseen(main: Bytes, bs: nat, t: nat, crc: Checksum, b: BlockID)
    requires METADATA_LENGTH <= bs && Is32Bit(crc) && t <= METADATA_LENGTH
    ensures Norm(b, MainRead(BumpTorn(main, t, crc), bs, b)) == Norm(b, MainRead(main, bs, b))
  {
    hide Masked, AllZero, Decoded, Encoded;
    if HeaderReadable(main, crc) && 0 <= b && Off(b, bs) + bs <= |main| {
      var h' := Encoded(NextVersion(Decoded(main[..METADATA_LENGTH], crc).value), crc);
      if b > 0 {
        OffMono(0, b, bs);
        WrittenElsewhere(main, 0, h'[..t], Off(b, bs), Off(b, bs) + bs);
      } else {
        BumpTornMasked(main, bs, t, crc);
      }
    }
  }

  lemma BumpTornMasked(main: Bytes, bs: nat, t: nat, crc: Checksum)
    requires METADATA_LENGTH <= bs <= |main| && Is32Bit(crc) && HeaderReadable(main, crc) && t <= METADATA_LENGTH
    ensures Masked(BumpTorn(main, t, crc)[0..bs]) == Masked(main[0..bs])
  {
    hide Decoded, Encoded, BumpTorn;
    var h := main[..METADATA_LENGTH];
    VersionCountsUp(h, crc);
    TornHeaderBytes(main, t, crc);
    var h' := Encoded(NextVersion(Decoded(h, crc).value), crc);
    var x, y := BumpTorn(main, t, crc)[0..bs], main[0..bs];
    assert x[..METADATA_LENGTH] == h'[..t] + h[t..] && y[..METADATA_LENGTH] == h;
    SameKeptBytes(x, y, h, h', t);
    assert x[METADATA_LENGTH..] == y[METADATA_LENGTH..] by {
      assert x ==
          BumpTorn(main, t, crc)[..METADATA_LENGTH] + BumpTorn(main, t, crc)[METADATA_LENGTH..][..bs - METADATA_LENGTH];
      assert y == main[..METADATA_LENGTH] + main[METADATA_LENGTH..][..bs - METADATA_LENGTH];
    }
  }

  lemma SameKeptBytes(x: Bytes, y: Bytes, h: Bytes, h': Bytes, t: nat)
    requires |h| == |h'| == METADATA_LENGTH <= |x| == |y| && t <= METADATA_LENGTH
    requires x[..METADATA_LENGTH] == h'[..t] + h[t..] && y[..METADATA_LENGTH] == h
    requires h'[..8] == h[..8] && h'[12..29] == h[12..29]
    ensures x[..8] == y[..8] && x[12..29] == y[12..29]
  {
    forall i | 0 <= i < 8 || 12 <= i < 29
      ensures x[i] == y[i]
    {
      assert x[i] == x[..METADATA_LENGTH][i] && y[i] == y[..METADATA_LENGTH][i];
      if i < 8 {
        assert h'[i] == h'[..8][i] == h[..8][i];
      } else {
        assert h'[i] == h'[12..29][i - 12] == h[12..29][i - 12];
      }
    }
  }

  /** The bump of a whole first block is the bump of the file. */
  lemma BumpFirst(main: Bytes, bs: nat, crc: Checksum)
    requires METADATA_LENGTH <= bs <= |main|
    ensures MainRead(Bumped(main, crc), bs, 0) == Some(Bumped(main[..bs], crc))
  {
    hide Decoded, Encoded;
    assert main[..bs][..METADATA_LENGTH] == main[..METADATA_LENGTH];
    if HeaderReadable(main, crc) {
      var h := Encoded(NextVersion(Decoded(main[..METADATA_LENGTH], crc).value), crc);
      assert Written(main, 0, h)[0..bs] == Written(main[..bs], 0, h);
    }
  }

  lemma ZerosUnreadable(n: nat, crc: Checksum)
    ensures !HeaderReadable(Zeros(n), crc)
  {
    if METADATA_LENGTH <= n {
      assert Zeros(n)[..METADATA_LENGTH][..8][0] != MAGIC[0];
    }
  }

  /* ---- copying frames into main ---- */

  /** The main file after the blocks of order were copied from the log, one by one. */
  ghost function Moved(s: Store, order: seq<BlockID>): Bytes
    requires Indexed(s) && forall i :: 0 <= i < |order| ==> order[i] in s.index
  {
    if order == [] then s.main
    else
      var n := |order| - 1;
      Written(Moved(s, order[..n]), Off(order[n], s.bs), WalRead(s, order[n]))
  }

  lemma PayloadSize(s: Store, b: BlockID)
    requires Indexed(s) && b in s.index
    ensures |WalRead(s, b)| == s.bs
  {
    hide FrameOf;
    assert Holds(s, s.index[b], b);
    var o := Off(s.slots[s.index[b]], FrameSize(s.bs));
    FramePayload(s.wal[o..o + FrameSize(s.bs)]);
  }

  /** Block c lies across the end of the main file. */
  predicate TornAt(main: Bytes, bs: nat, c: BlockID) {
    0 <= c && Off(c, bs) < |main| < Off(c, bs) + bs
  }

  /** A write at the place of block b, whole or torn, leaves another block as it
      was, but fills up one at or past the end when it goes past it. */
  lemma CopyRaw(main: Bytes, bs: nat, b: BlockID, buf: Bytes, c: BlockID)
    requires 0 <= b && 0 <= c != b && 0 < bs && |buf| <= bs
    ensures var main' := Written(main, Off(b, bs), buf);
      && MainRead(main', bs, c) ==
         (if MainRead(main, bs, c) == None && c < b then Some(Padded(main, bs, c)) else MainRead(main, bs, c))
      && Padded(main', bs, c) == Padded(main, bs, c)
      && (!TornAt(main, bs, c) ==> !TornAt(main', bs, c))
  {
    hide Written, Off;
    if b < c {
      OffMono(b, c, bs);
    } else {
      OffMono(c, b, bs);
    }
    var main' := Written(main, Off(b, bs), buf);
    if Off(c, bs) + bs <= |main| {
      WrittenElsewhere(main, Off(b, bs), buf, Off(c, bs), Off(c, bs) + bs);
    } else if c < b {
      assert main'[Off(c, bs)..Off(c, bs) + bs] == Padded(main, bs, c);
    }
    assert Padded(main', bs, c) == Padded(main, bs, c);
  }

  lemma CopyThere(main: Bytes, bs: nat, b: BlockID, buf: Bytes)
    requires 0 <= b && |buf| == bs
    ensures MainRead(Written(main, Off(b, bs), buf), bs, b) == Some(buf)
    ensures !TornAt(Written(main, Off(b, bs), buf), bs, b)
  {
    WrittenThere(main, Off(b, bs), buf);
  }

  /** Other blocks that are not torn compare as before, and an absent block 0 is
      filled in. */
  lemma CopySeen(main: Bytes, bs: nat, b: BlockID, buf: Bytes, c: BlockID)
    requires 0 <= b != c && 0 < bs && |buf| <= bs && !TornAt(main, bs, c)
    ensures var main' := Written(main, Off(b, bs), buf);
      Norm(c, MainRead(main', bs, c)) == Norm(c, Filled(c, MainRead(main, bs, c), bs, true)) && !TornAt(main', bs, c)
  {
    hide Masked, Off, Padded;
    if c >= 0 {
      CopyRaw(main, bs, b, buf, c);
      if MainRead(main, bs, c) == None {
        PaddedBlank(main, bs, c);
      }
    }
  }

  lemma PaddedBlank(main: Bytes, bs: nat, c: nat)
    requires !TornAt(main, bs, c) && MainRead(main, bs, c) == None
    ensures Padded(main, bs, c) == Zeros(bs) && AllZero(Padded(main, bs, c))
  {
  }

  /** Exactly what main holds after the copies. */
  lemma {:induction false} MovedRaw(s: Store, order: seq<BlockID>, c: BlockID)
    requires Indexed(s) && forall i :: 0 <= i < |order| ==> order[i] in s.index
    requires c !in order
    ensures MainRead(Moved(s, order), s.bs, c) == Regrown(s.main, s.bs, order, c, MainRead(s.main, s.bs, c))
    ensures 0 <= c ==> Padded(Moved(s, order), s.bs, c) == Padded(s.main, s.bs, c)
  {
    hide Indexed, WalRead, Padded, Moved, Passes;
    if order == [] {
      MovedNone(s);
      PassesMore(order, c);
    } else {
      var n := |order| - 1;
      assert order == order[..n] + [order[n]];
      MovedRaw(s, order[..n], c);
      MovedLast(s, order);
      PassesMore(order, c);
      if 0 <= c {
        CopyRaw(Moved(s, order[..n]), s.bs, order[n], WalRead(s, order[n]), c);
      }
    }
  }

  lemma PassesMore(order: seq<BlockID>, c: BlockID)
    ensures order == [] ==> !Passes(order, c)
    ensures order != [] ==> (Passes(order, c) <==> Passes(order[..|order| - 1], c) || c < order[|order| - 1])
  {
    if order != [] {
      var n := |order| - 1;
      if Passes(order, c) {
        var i :| 0 <= i < |order| && c < order[i];
        assert i < n ==> order[..n][i] == order[i];
      }
      if Passes(order[..n], c) {
        var i :| 0 <= i < n && c < order[..n][i];
        assert order[i] == order[..n][i];
      }
    }
  }

  lemma {:induction false} MovedThere(s: Store, order: seq<BlockID>, c: BlockID)
    requires Indexed(s) && forall i :: 0 <= i < |order| ==> order[i] in s.index
    ensures c in order ==> MainRead(Moved(s, order), s.bs, c) == Some(WalRead(s, c))
    ensures !TornAt(s.main, s.bs, c) ==> !TornAt(Moved(s, order), s.bs, c)
  {
    hide Indexed, WalRead, MainRead, TornAt, Moved, Padded;
    if order == [] {
      MovedNone(s);
    } else {
      var n := |order| - 1;
      assert order == order[..n] + [order[n]];
      MovedThere(s, order[..n], c);
      MovedLast(s, order);
      if c == order[n] {
        CopyThere(Moved(s, order[..n]), s.bs, c, WalRead(s, c));
      } else {
        NoneTornBelow(Moved(s, order), s.bs, c);
        if c in order {
          IndexedAt(s, c);
        }
        if 0 <= c {
          CopyRaw(Moved(s, order[..n]), s.bs, order[n], WalRead(s, order[n]), c);
        }
      }
    }
  }

  lemma NoneTornBelow(main: Bytes, bs: nat, c: BlockID)
    ensures c < 0 ==> !TornAt(main, bs, c)
  {
  }

  /** Copied blocks read from main as from the log; others that are not torn
      compare as before, but for an absent block 0. */
  lemma MovedSeen(s: Store, order: seq<BlockID>, c: BlockID)
    requires Indexed(s) && forall i :: 0 <= i < |order| ==> order[i] in s.index
    ensures c in order ==> MainRead(Moved(s, order), s.bs, c) == Some(WalRead(s, c))
    ensures c !in order && !TornAt(s.main, s.bs, c) ==>
      Norm(c, MainRead(Moved(s, order), s.bs, c)) == Norm(c, Filled(c, MainRead(s.main, s.bs, c), s.bs, order != []))
    ensures !TornAt(s.main, s.bs, c) ==> !TornAt(Moved(s, order), s.bs, c)
  {
    hide WalRead, Moved, TornAt, Norm, Regrown, Filled;
    MovedThere(s, order, c);
    if c !in order {
      MovedRaw(s, order, c);
      if !TornAt(s.main, s.bs, c) {
        OrderAbove(s, order);
        RegrownIsFilled(s.main, s.bs, order, c, MainRead(s.main, s.bs, c));
      }
    }
  }

  lemma RegrownIsFilled(main: Bytes, bs: nat, order: seq<BlockID>, c: BlockID, r: Option<Bytes>)
    requires METADATA_LENGTH <= bs && forall i :: 0 <= i < |order| ==> 0 <= order[i]
    requires r == None ==> c !in order && MainRead(main, bs, c) == None && !TornAt(main, bs, c)
    ensures Norm(c, Regrown(main, bs, order, c, r)) == Norm(c, Filled(c, r, bs, order != []))
  {
    hide Masked, TornAt, MainRead, Padded;
    if r == None && 0 <= c {
      PaddedBlank(main, bs, c);
      if order != [] && c == 0 {
        assert order[0] in order && order[0] != c;
      }
    }
  }

  lemma OrderAbove(s: Store, order: seq<BlockID>)
    requires Indexed(s) && forall i :: 0 <= i < |order| ==> order[i] in s.index
    ensures METADATA_LENGTH <= s.bs && forall i :: 0 <= i < |order| ==> 0 <= order[i]
  {
    hide WalRead, FrameAt;
  }

  lemma MovedNone(s: Store)
    requires Indexed(s)
    ensures Moved(s, []) == s.main
  {
  }

  lemma MovedLast(s: Store, order: seq<BlockID>)
    requires Indexed(s) && order != [] && forall i :: 0 <= i < |order| ==> order[i] in s.index
    ensures var n := |order| - 1;
      && 0 <= order[n] && METADATA_LENGTH <= s.bs && |WalRead(s, order[n])| == s.bs
      && Moved(s, order) == Written(Moved(s, order[..n]), Off(order[n], s.bs), WalRead(s, order[n]))
  {
    IndexedAt(s, order[|order| - 1]);
    PayloadSize(s, order[|order| - 1]);
  }

  lemma IndexedAt(s: Store, b: BlockID)
    requires Indexed(s) && b in s.index
    ensures 0 <= b < TWO_63 && METADATA_LENGTH <= s.bs && Holds(s, s.index[b], b)
  {
  }

  /* ---- rewriting the log ---- */

  ghost function SlotBytes(s: Store, b: BlockID): Bytes
    requires Indexed(s) && b in s.index
  {
    IndexedAt(s, b);
    var o := Off(s.slots[s.index[b]], FrameSize(s.bs));
    s.wal[o..o + FrameSize(s.bs)]
  }

  /** The log after the first k kept frames were written from its start. */
  ghost function KeptWal(s: Store, kept: seq<BlockID>, k: nat): Bytes
    requires Indexed(s) && k <= |kept| && forall i :: 0 <= i < |kept| ==> kept[i] in s.index
  {
    if k == 0 then s.wal
    else Written(KeptWal(s, kept, k - 1), Off(k - 1, FrameSize(s.bs)), SlotBytes(s, kept[k - 1]))
  }

  ghost function KeptSlots(s: Store, kept: seq<BlockID>, k: nat): map<WalID, nat>
    requires k <= |kept| && forall i :: 0 <= i < |kept| ==> kept[i] in s.index
  {
    if k == 0 then map[] else KeptSlots(s, kept, k - 1)[s.index[kept[k - 1]] := k - 1]
  }

  lemma KeptSize(s: Store, b: BlockID)
    requires Indexed(s) && b in s.index
    ensures |SlotBytes(s, b)| == FrameSize(s.bs)
  {
    IndexedAt(s, b);
  }

  lemma {:induction false} KeptFrames(s: Store, kept: seq<BlockID>, k: nat)
    requires Indexed(s) && k <= |kept| && forall i :: 0 <= i < |kept| ==> kept[i] in s.index
    ensures Off(k, FrameSize(s.bs)) <= |KeptWal(s, kept, k)|
    ensures forall i :: 0 <= i < k ==>
      Full(KeptWal(s, kept, k), s.bs, i) && FrameAt(KeptWal(s, kept, k), s.bs, i) == FrameOf(SlotBytes(s, kept[i]))
  {
    hide Indexed, FrameOf, SlotBytes;
    if k > 0 {
      KeptFrames(s, kept, k - 1);
      var fs, w := FrameSize(s.bs), KeptWal(s, kept, k - 1);
      var bytes := SlotBytes(s, kept[k - 1]);
      KeptSize(s, kept[k - 1]);
      assert Off(k, fs) == Off(k - 1, fs) + fs;
      WrittenThere(w, Off(k - 1, fs), bytes);
      forall i | 0 <= i < k - 1
        ensures Full(KeptWal(s, kept, k), s.bs, i) && FrameAt(KeptWal(s, kept, k), s.bs, i) == FrameAt(w, s.bs, i)
      {
        OtherSlots(w, s.bs, k - 1, Off(k - 1, fs), bytes, i);
      }
    }
  }

  lemma {:induction false} KeptSlotsHold(s: Store, kept: seq<BlockID>, k: nat, b: BlockID)
    requires Indexed(s) && k <= |kept| && forall i :: 0 <= i < |kept| ==> kept[i] in s.index
    requires b in s.index
    ensures b in kept[..k] ==> s.index[b] in KeptSlots(s, kept, k)
    ensures s.index[b] in KeptSlots(s, kept, k) ==>
      KeptSlots(s, kept, k)[s.index[b]] < k && kept[KeptSlots(s, kept, k)[s.index[b]]] == b
  {
    if k > 0 {
      KeptSlotsHold(s, kept, k - 1, b);
      assert kept[..k] == kept[..k - 1] + [kept[k - 1]];
      IndexedAt(s, b);
      IndexedAt(s, kept[k - 1]);
    }
  }

  lemma TruncatedKeeps(wal: Bytes, bs: nat, n: nat, i: nat)
    requires Off(n, FrameSize(bs)) <= |wal| && i < n
    ensures Full(wal, bs, i) && Full(Truncated(wal, Off(n, FrameSize(bs))), bs, i)
    ensures FrameAt(Truncated(wal, Off(n, FrameSize(bs))), bs, i) == FrameAt(wal, bs, i)
  {
    var fs := FrameSize(bs);
    OffMono(i, n, fs);
    assert Truncated(wal, Off(n, fs))[Off(i, fs)..Off(i, fs) + fs] == wal[Off(i, fs)..Off(i, fs) + fs];
  }

  /* ---- the whole checkpoint ---- */

  /** The smallest watermark in use, or the newest WAL ID when no one reads. */
  ghost predicate IsGate(s: Store, gate: WalID) {
    && gate <= s.maxID
    && (forall t :: t in s.txs ==> gate <= s.txs[t])
    && (gate == s.maxID || exists t :: t in s.txs && s.txs[t] == gate)
  }

  ghost predicate Splits(s: Store, gate: WalID, moved: seq<BlockID>, kept: seq<BlockID>) {
    && (forall i :: 0 <= i < |moved| ==> moved[i] in s.index)
    && (forall i :: 0 <= i < |kept| ==> kept[i] in s.index)
    && (forall b :: b in s.index ==> (b in moved <==> s.index[b] < gate))
    && (forall b :: b in s.index ==> (b in kept <==> gate <= s.index[b]))
  }

  ghost function KeptIndex(s: Store, gate: WalID): map<BlockID, WalID> {
    map b | b in s.index && gate <= s.index[b] :: s.index[b]
  }

  /** A checkpoint that copies the blocks of moved into main and keeps the
      frames of kept, in these orders. */
  ghost function Checkpointed(s: Store, gate: WalID, moved: seq<BlockID>, kept: seq<BlockID>, crc: Checksum): Store
    requires Indexed(s) && Splits(s, gate, moved, kept)
  {
    s.(main := Bumped(Moved(s, moved), crc),
       wal := Truncated(KeptWal(s, kept, |kept|), Off(|kept|, FrameSize(s.bs))),
       index := KeptIndex(s, gate),
       slots := KeptSlots(s, kept, |kept|),
       end := |kept|,
       committed := if HeaderReadable(Moved(s, moved), crc) then 0 else s.committed)
  }

  lemma CheckpointIndexed(s: Store, gate: WalID, moved: seq<BlockID>, kept: seq<BlockID>, crc: Checksum)
    requires Indexed(s) && Splits(s, gate, moved, kept)
    ensures var s' := Checkpointed(s, gate, moved, kept, crc);
      && Indexed(s')
      && (forall b :: b in s'.index ==> b in s.index && s'.index[b] == s.index[b] && WalRead(s', b) == WalRead(s, b))
  {
    hide FrameOf, KeptWal, KeptSlots;
    var s' := Checkpointed(s, gate, moved, kept, crc);
    KeptFrames(s, kept, |kept|);
    forall b | b in s'.index
      ensures 0 <= b < TWO_63 && Holds(s', s'.index[b], b)
      ensures FrameAt(s'.wal, s.bs, s'.slots[s'.index[b]]) == FrameAt(s.wal, s.bs, s.slots[s.index[b]])
    {
      assert kept[..|kept|] == kept;
      KeptSlotsHold(s, kept, |kept|, b);
      TruncatedKeeps(KeptWal(s, kept, |kept|), s.bs, |kept|, s'.slots[s'.index[b]]);
      IndexedAt(s, b);
    }
  }

  /** No checkpoint, partial or full, changes what any active transaction, or
      any later one, reads (block 0 apart from its version and checksum, and an
      absent block possibly as zeros), but for an absent block that main has grown
      over: a transaction notices exactly when that is block 0, or a block of which
      main had a part that is not all zeros. */
  lemma CheckpointUnseen(s: Store, gate: WalID, moved: seq<BlockID>, kept: seq<BlockID>, crc: Checksum,
                         b: BlockID, w: WalID)
    requires Indexed(s) && Splits(s, gate, moved, kept) && Is32Bit(crc) && gate <= w
    ensures Indexed(Checkpointed(s, gate, moved, kept, crc))
    ensures var s' := Checkpointed(s, gate, moved, kept, crc);
      && Norm(b, Read(s', b, w)) == Norm(b, Regrown(s.main, s.bs, moved, b, Read(s, b, w)))
      && (Norm(b, Read(s', b, w)) == Norm(b, Read(s, b, w)) <==> !Noticed(s.main, s.bs, moved, b, Read(s, b, w)))
  {
    hide Moved, KeptWal, KeptSlots, Norm, Regrown, FrameAt, Noticed;
    CheckpointIndexed(s, gate, moved, kept, crc);
    BumpUnseen(Moved(s, moved), s.bs, crc, b);
    MovedThere(s, moved, b);
    if b !in moved {
      MovedRaw(s, moved, b);
    }
    NoticedExactly(s.main, s.bs, moved, b, Read(s, b, w));
  }

  /** Copying these blocks shows at block b to a transaction that reads r there. */
  ghost predicate Noticed(main: Bytes, bs: nat, moved: seq<BlockID>, b: BlockID, r: Option<Bytes>) {
    r == None && 0 <= b && Passes(moved, b) && (b == 0 || !AllZero(Padded(main, bs, b)))
  }

  lemma NoticedExactly(main: Bytes, bs: nat, moved: seq<BlockID>, b: BlockID, r: Option<Bytes>)
    ensures Norm(b, Regrown(main, bs, moved, b, r)) == Norm(b, r) <==> !Noticed(main, bs, moved, b, r)
    ensures r.Some? ==> Regrown(main, bs, moved, b, r) == r
  {
    hide Masked, Padded, Passes;
  }

  /** Where the reader's block is not torn only block 0 shows a checkpoint. */
  lemma CheckpointFills(s: Store, gate: WalID, moved: seq<BlockID>, kept: seq<BlockID>, crc: Checksum,
                        b: BlockID, w: WalID)
    requires Indexed(s) && Splits(s, gate, moved, kept) && Is32Bit(crc) && gate <= w
    requires TornAt(s.main, s.bs, b) ==> b in moved || (b in s.index && s.index[b] < w)
    ensures Indexed(Checkpointed(s, gate, moved, kept, crc))
    ensures Norm(b, Read(Checkpointed(s, gate, moved, kept, crc), b, w)) ==
      Norm(b, Filled(b, Read(s, b, w), s.bs, moved != []))
  {
    hide Moved, KeptWal, KeptSlots, Norm, TornAt, FrameAt, Regrown, Filled, Checkpointed;
    CheckpointUnseen(s, gate, moved, kept, crc, b, w);
    OrderAbove(s, moved);
    RegrownIsFilled(s.main, s.bs, moved, b, Read(s, b, w));
  }

  /** Exactly what a checkpoint does to the raw reads: an absent block that main
      has grown over reads as what main had of it and zeros, block 0 read from
      main has its version counted up, everything else reads the very same bytes. */
  lemma CheckpointExact(s: Store, gate: WalID, moved: seq<BlockID>, kept: seq<BlockID>, crc: Checksum,
                        b: BlockID, w: WalID)
    requires Indexed(s) && Splits(s, gate, moved, kept) && gate <= w
    ensures Indexed(Checkpointed(s, gate, moved, kept, crc))
    ensures Read(Checkpointed(s, gate, moved, kept, crc), b, w) ==
      match Regrown(s.main, s.bs, moved, b, Read(s, b, w))
      case None => None
      case Some(buf) => if b != 0 || (b in s.index && gate <= s.index[b] < w) then Some(buf) else Some(Bumped(buf, crc))
  {
    hide Moved, KeptWal, KeptSlots, FrameAt, Off, Bumped, Regrown;
    CheckpointIndexed(s, gate, moved, kept, crc);
    MovedThere(s, moved, b);
    if b !in moved {
      MovedRaw(s, moved, b);
    }
    NoticedExactly(s.main, s.bs, moved, b, Read(s, b, w));
    BumpedRead(Moved(s, moved), s.bs, crc, b);
  }

  lemma BumpedRead(main: Bytes, bs: nat, crc: Checksum, b: BlockID)
    requires METADATA_LENGTH <= bs
    ensures MainRead(Bumped(main, crc), bs, b) ==
      if b == 0 && MainRead(main, bs, b).Some? then Some(Bumped(MainRead(main, bs, b).value, crc))
      else MainRead(main, bs, b)
  {
    hide Decoded, Encoded;
    if b > 0 {
      BumpRaw(main, bs, crc, b);
    } else if b == 0 && bs <= |main| {
      BumpFirst(main, bs, crc);
      assert main[0..bs] == main[..bs];
    }
  }

  /** Once a frame was moved, main covers block 0. */
  lemma {:induction false} MovedCovers(s: Store, order: seq<BlockID>)
    requires Indexed(s) && forall i :: 0 <= i < |order| ==> order[i] in s.index
    ensures order != [] ==> s.bs <= |Moved(s, order)|
    ensures |s.main| <= |Moved(s, order)|
  {
    hide WalRead;
    if order != [] {
      var n := |order| - 1;
      MovedCovers(s, order[..n]);
      IndexedAt(s, order[n]);
      PayloadSize(s, order[n]);
    }
  }

  /* ---- free block IDs ---- */

  lemma {:induction false} MovedBelow(s: Store, order: seq<BlockID>, next: BlockID, b: BlockID)
    requires Indexed(s) && forall i :: 0 <= i < |order| ==> order[i] in s.index
    requires forall c :: c in s.index ==> c < next
    requires MainRead(s.main, s.bs, b).Some? ==> b < next
    ensures MainRead(Moved(s, order), s.bs, b).Some? ==> b < next
  {
    hide WalRead, Moved;
    if order == [] {
      MovedNone(s);
    } else {
      var n := |order| - 1;
      MovedBelow(s, order[..n], next, b);
      MovedLast(s, order);
      if order[n] < b {
        OffMono(order[n], b, s.bs);
      }
    }
  }

  lemma CheckpointBelow(s: Store, gate: WalID, moved: seq<BlockID>, kept: seq<BlockID>, crc: Checksum)
    requires Indexed(s) && Splits(s, gate, moved, kept) && BelowNext(s)
    ensures BelowNext(Checkpointed(s, gate, moved, kept, crc))
  {
    hide Moved, KeptWal, KeptSlots, Bumped, Indexed;
    var s' := Checkpointed(s, gate, moved, kept, crc);
    forall b
      ensures MainRead(s'.main, s.bs, b).Some? ==> b < s.nextBlock
    {
      MovedBelow(s, moved, s.nextBlock, b);
      SameLengthRead(Moved(s, moved), s'.main, s.bs, b);
    }
  }

  lemma TornByLength(main: Bytes, main': Bytes, bs: nat, c: BlockID)
    requires |main| == |main'|
    ensures TornAt(main, bs, c) <==> TornAt(main', bs, c)
  {
  }

  lemma SameLengthRead(main: Bytes, main': Bytes, bs: nat, b: BlockID)
    requires |main| == |main'|
    ensures MainRead(main, bs, b).Some? <==> MainRead(main', bs, b).Some?
  {
  }

  /** The bump adds one to the version, modulo 2^32, and leaves the page size power
      and every byte behind the header as it was. */
  lemma BumpedByOne(main: Bytes, crc: Checksum)
    requires Is32Bit(crc) && HeaderReadable(main, crc)
    ensures LEValue(Bumped(main, crc)[8..12]) == (LEValue(main[8..12]) + 1) % TWO_32
    ensures Bumped(main, crc)[..8] == main[..8] && Bumped(main, crc)[12..29] == main[12..29]
    ensures Bumped(main, crc)[100..] == main[100..]
  {
    hide Decoded, Encoded, LEValue;
    var n, main' := METADATA_LENGTH, Bumped(main, crc);
    VersionByOne(main[..n], crc);
    VersionCountsUp(main[..n], crc);
    assert main'[0..n] == Encoded(NextVersion(Decoded(main[..n], crc).value), crc) && main[0..n] == main[..n];
    InnerSlice(main', 0, n, 0, 8);
    InnerSlice(main', 0, n, 8, 12);
    InnerSlice(main', 0, n, 12, 29);
    InnerSlice(main, 0, n, 0, 8);
    InnerSlice(main, 0, n, 8, 12);
    InnerSlice(main, 0, n, 12, 29);
  }

  /** A checkpoint starts the count of commits anew, if the header can be counted up,
      and leaves as many frames in the log as it keeps. */
  lemma CountsAnew(s: Store, gate: WalID, moved: seq<BlockID>, kept: seq<BlockID>, crc: Checksum)
    requires Indexed(s) && Splits(s, gate, moved, kept) && Is32Bit(crc)
    ensures var s' := Checkpointed(s, gate, moved, kept, crc);
      && s'.end == |kept|
      && s'.committed == (if HeaderReadable(s'.main, crc) then 0 else s.committed)
  {
    hide Moved, KeptWal, KeptSlots, Decoded, Encoded;
    StillReadable(Moved(s, moved), crc);
  }

  lemma StillReadable(main: Bytes, crc: Checksum)
    requires Is32Bit(crc)
    ensures HeaderReadable(Bumped(main, crc), crc) <==> HeaderReadable(main, crc)
  {
    hide Decoded, Encoded;
    if HeaderReadable(main, crc) {
      var h := main[..METADATA_LENGTH];
      VersionCountsUp(h, crc);
      assert Bumped(main, crc)[..METADATA_LENGTH] == Encoded(NextVersion(Decoded(h, crc).value), crc);
    }
  }

  /** A block is copied exactly if every active transaction reads its version from
      the log, and its frame is kept exactly if some transaction is older than it. */
  lemma CopiedIfAllSeeIt(s: Store, gate: WalID, moved: seq<BlockID>, kept: seq<BlockID>, b: BlockID)
    requires Indexed(s) && WatermarksKnown(s) && IsGate(s, gate) && Splits(s, gate, moved, kept)
    ensures b in moved <==> b in s.index && forall t :: t in s.txs ==> s.index[b] < s.txs[t]
    ensures b in kept <==> b in s.index && exists t :: t in s.txs && s.txs[t] <= s.index[b]
  {
    hide FrameAt, Full;
    if b in s.index {
      IndexedAt(s, b);
    }
    if b in moved || b in kept {
      ListedInIndex(s, moved, b);
      ListedInIndex(s, kept, b);
    }
  }

  lemma ListedInIndex(s: Store, ids: seq<BlockID>, b: BlockID)
    requires forall i :: 0 <= i < |ids| ==> ids[i] in s.index
    ensures b in ids ==> b in s.index
  {
  }
}

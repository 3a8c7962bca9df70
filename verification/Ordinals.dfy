/**
 The ordinal indexes by which transactions, swaps and token transfers are sorted, packed
 into 64-bit words, and the key of a token transfer.
 */
module Ordinals {
  import opened Wrappers
  import opened Bits
  import opened Bytes

  const POSITIVE: nat := 0x7FFF_FFFF_FFFF_FFFF

  /** The mask of a token transfer's time stamp has 39 ones. */
  const STAMP_MASK: nat := 0x7F_FFFF_FFFF

  // ------------------------------------- the masks and shifts that are used

  lemma PowersOfTwo()
    ensures Pow2(6) == 0x40 && Pow2(8) == 0x100 && Pow2(14) == 0x4000 && Pow2(24) == 0x100_0000
    ensures Pow2(39) == 0x80_0000_0000 && Pow2(40) == 0x100_0000_0000
    ensures Pow2(50) == 0x4_0000_0000_0000 && Pow2(56) == 0x100_0000_0000_0000
    ensures Pow2(63) == 0x8000_0000_0000_0000
  {
    assert Pow2(6) == 0x40 && Pow2(8) == 0x100 && Pow2(10) == 0x400 && Pow2(14) == 0x4000;
    PowAdd(10, 14);
    PowAdd(24, 6);
    PowAdd(30, 8);
    assert Pow2(39) == 2 * Pow2(38);
    PowAdd(40, 10);
    PowAdd(50, 6);
    PowAdd(39, 24);
  }

  lemma Mask8(x: nat)
    ensures And(x, 0xff) == x % 0x100
  {
    PowersOfTwo();
    AndMask(x, 8);
  }

  lemma Mask14(x: nat)
    ensures And(x, 0x3fff) == x % 0x4000
  {
    PowersOfTwo();
    AndMask(x, 14);
  }

  lemma Mask39(x: nat)
    ensures And(x, STAMP_MASK) == x % 0x80_0000_0000
  {
    PowersOfTwo();
    AndMask(x, 39);
  }

  lemma Mask63(x: nat)
    ensures And(x, POSITIVE) == x % 0x8000_0000_0000_0000
  {
    PowersOfTwo();
    AndMask(x, 63);
  }

  lemma Shift8(x: nat)
    ensures ShiftLeft(x, 8) == x % 0x100_0000_0000_0000 * 0x100
  {
    PowersOfTwo();
    ShiftLeftKeeps(x, 8);
  }

  lemma Shift14(x: nat)
    ensures ShiftLeft(x, 14) == x % 0x4_0000_0000_0000 * 0x4000
  {
    PowersOfTwo();
    ShiftLeftKeeps(x, 14);
  }

  lemma Shift24(x: nat)
    ensures ShiftLeft(x, 24) == x % 0x100_0000_0000 * 0x100_0000
  {
    PowersOfTwo();
    ShiftLeftKeeps(x, 24);
  }

  lemma Pack8(high: nat, low: nat)
    requires low < 0x100
    ensures Or(high * 0x100, low) == high * 0x100 + low
  {
    PowersOfTwo();
    OrDisjoint(high, low, 8);
  }

  lemma Pack14(high: nat, low: nat)
    requires low < 0x4000
    ensures Or(high * 0x4000, low) == high * 0x4000 + low
  {
    PowersOfTwo();
    OrDisjoint(high, low, 14);
  }

  // ------------------------------------------------------------ transactions

  /** A transaction's position in its block is missing while it is pending. */
  datatype Transaction = Transaction(index: Option<nat>, block: nat, hash: seq<byte>)

  predicate IsHash(hash: seq<byte>) {
    |hash| == 32
  }

  function Uid(t: Transaction): nat
    requires IsHash(t.hash)
  {
    match t.index
    case Some(index) => Or(ShiftLeft(t.block, 14), And(And(index, 0x3fff), POSITIVE))
    case None => And(Value(t.hash[..8]), POSITIVE)
  }

  /** A mined transaction keeps 50 bits of its block and 14 of its position; a pending one
      keeps 63 bits of its hash. */
  lemma UidValue(t: Transaction)
    requires IsHash(t.hash)
    ensures t.index.Some? ==> Uid(t) == t.block % 0x4_0000_0000_0000 * 0x4000 + t.index.value % 0x4000
    ensures t.index.None? ==> Uid(t) == Value(t.hash[..8]) % 0x8000_0000_0000_0000
  {
    match t.index
    case Some(index) => MinedValue(t.block, index);
    case None => Mask63(Value(t.hash[..8]));
  }

  lemma MinedValue(block: nat, index: nat)
    ensures Or(ShiftLeft(block, 14), And(And(index, 0x3fff), POSITIVE))
            == block % 0x4_0000_0000_0000 * 0x4000 + index % 0x4000
  {
    var low := index % 0x4000;
    Mask14(index);
    assert And(low, POSITIVE) == low by {
      Mask63(low);
    }
    Shift14(block);
    Pack14(block % 0x4_0000_0000_0000, low);
  }

  /** Two mined transactions collide exactly if their blocks agree in 50 bits and their
      positions in 14, and are in the order of those bits otherwise. */
  lemma UidCollides(t: Transaction, u: Transaction)
    requires IsHash(t.hash) && IsHash(u.hash) && t.index.Some? && u.index.Some?
    ensures Uid(t) == Uid(u) <==>
              && t.block % 0x4_0000_0000_0000 == u.block % 0x4_0000_0000_0000
              && t.index.value % 0x4000 == u.index.value % 0x4000
    ensures Uid(t) < Uid(u) <==>
              || t.block % 0x4_0000_0000_0000 < u.block % 0x4_0000_0000_0000
              || (t.block % 0x4_0000_0000_0000 == u.block % 0x4_0000_0000_0000 &&
                  t.index.value % 0x4000 < u.index.value % 0x4000)
  {
    UidValue(t);
    UidValue(u);
    PackedOrder(t.block % 0x4_0000_0000_0000, t.index.value % 0x4000,
                u.block % 0x4_0000_0000_0000, u.index.value % 0x4000);
  }

  /** Up to block 2^50 and position 2^14 the index keeps the order of the chain. */
  lemma UidKeepsOrder(t: Transaction, u: Transaction)
    requires IsHash(t.hash) && IsHash(u.hash) && t.index.Some? && u.index.Some?
    requires t.block < 0x4_0000_0000_0000 && u.block < 0x4_0000_0000_0000
    requires t.index.value < 0x4000 && u.index.value < 0x4000
    ensures Uid(t) < Uid(u) <==> t.block < u.block || (t.block == u.block && t.index.value < u.index.value)
  {
    UidOfSmall(t);
    UidOfSmall(u);
    PackedOrder(t.block, t.index.value, u.block, u.index.value);
  }

  lemma UidOfSmall(t: Transaction)
    requires IsHash(t.hash) && t.index.Some? && t.block < 0x4_0000_0000_0000 && t.index.value < 0x4000
    ensures Uid(t) == t.block * 0x4000 + t.index.value
  {
    UidValue(t);
    DivUnique(t.block, 0x4_0000_0000_0000, 0, t.block);
    DivUnique(t.index.value, 0x4000, 0, t.index.value);
  }

  lemma PackedOrder(high: nat, low: nat, high': nat, low': nat)
    requires low < 0x4000 && low' < 0x4000
    ensures high * 0x4000 + low < high' * 0x4000 + low' <==> high < high' || (high == high' && low < low')
    ensures high * 0x4000 + low == high' * 0x4000 + low' <==> high == high' && low == low'
  {
  }

  /** The sign bit: a pending transaction never sets it, a mined one does exactly if bit 49
      of its block number is set, because the mask covers the position only. */
  lemma UidSign(t: Transaction)
    requires IsHash(t.hash)
    ensures Uid(t) > POSITIVE <==> t.index.Some? && t.block % 0x4_0000_0000_0000 >= 0x2_0000_0000_0000
  {
    UidValue(t);
    if t.index.Some? {
      PackedOrder(t.block % 0x4_0000_0000_0000, t.index.value % 0x4000, 0x2_0000_0000_0000, 0);
    }
  }

  /** The first transaction of block 2^49 is mined, and its index is negative. */
  lemma NegativeUidExample(hash: seq<byte>)
    requires IsHash(hash)
    ensures Uid(Transaction(Some(0), 0x2_0000_0000_0000, hash)) == POSITIVE + 1
  {
    MinedValue(0x2_0000_0000_0000, 0);
  }

  // ------------------------------------------------------------------- swaps

  function UniswapOrdinalIndex(block: nat, trx: nat, log: nat): nat {
    Or(Or(And(ShiftLeft(block, 14), POSITIVE), And(ShiftLeft(trx, 8), 0x3fff)), And(log, 0xff))
  }

  /** A swap keeps 49 bits of its block, 6 of its transaction's position and 8 of its log's. */
  lemma SwapValue(block: nat, trx: nat, log: nat)
    ensures UniswapOrdinalIndex(block, trx, log) ==
            block % 0x2_0000_0000_0000 * 0x4000 + (trx % 0x40 * 0x100 + log % 0x100)
  {
    SwapBlock(block);
    SwapTrx(trx);
    Mask8(log);
    SwapPacked(block % 0x2_0000_0000_0000, trx % 0x40, log % 0x100);
  }

  lemma SwapPacked(b: nat, t: nat, l: nat)
    requires t < 0x40 && l < 0x100
    ensures Or(Or(b * 0x4000, t * 0x100), l) == b * 0x4000 + (t * 0x100 + l)
  {
    Pack14(b, t * 0x100);
    assert b * 0x4000 + t * 0x100 == (b * 0x40 + t) * 0x100;
    Pack8(b * 0x40 + t, l);
  }

  lemma SwapBlock(block: nat)
    ensures And(ShiftLeft(block, 14), POSITIVE) == block % 0x2_0000_0000_0000 * 0x4000
  {
    Shift14(block);
    Mask63(ShiftLeft(block, 14));
    ProductMod(block % 0x4_0000_0000_0000, 0x2_0000_0000_0000, 0x4000);
    ModMod(block, 0x2_0000_0000_0000, 2);
  }

  lemma SwapTrx(trx: nat)
    ensures And(ShiftLeft(trx, 8), 0x3fff) == trx % 0x40 * 0x100
  {
    Shift8(trx);
    Mask14(ShiftLeft(trx, 8));
    ProductMod(trx % 0x100_0000_0000_0000, 0x40, 0x100);
    ModMod(trx, 0x40, 0x4_0000_0000_0000);
  }

  /** Two swaps collide exactly if their numbers agree in the bits kept, and are in the order of
      those bits otherwise. */
  lemma SwapCollides(b: nat, t: nat, l: nat, b': nat, t': nat, l': nat)
    ensures UniswapOrdinalIndex(b, t, l) == UniswapOrdinalIndex(b', t', l') <==>
              && b % 0x2_0000_0000_0000 == b' % 0x2_0000_0000_0000
              && t % 0x40 == t' % 0x40 && l % 0x100 == l' % 0x100
    ensures UniswapOrdinalIndex(b, t, l) < UniswapOrdinalIndex(b', t', l') <==>
              || b % 0x2_0000_0000_0000 < b' % 0x2_0000_0000_0000
              || (b % 0x2_0000_0000_0000 == b' % 0x2_0000_0000_0000 &&
                  (t % 0x40 < t' % 0x40 || (t % 0x40 == t' % 0x40 && l % 0x100 < l' % 0x100)))
  {
    SwapValue(b, t, l);
    SwapValue(b', t', l');
    PackedOrder(b % 0x2_0000_0000_0000, t % 0x40 * 0x100 + l % 0x100,
                b' % 0x2_0000_0000_0000, t' % 0x40 * 0x100 + l' % 0x100);
    LowOrder(t % 0x40, l % 0x100, t' % 0x40, l' % 0x100);
  }

  /** Up to block 2^49, 64 transactions and 256 logs the index keeps the order of the chain. */
  lemma SwapKeepsOrder(b: nat, t: nat, l: nat, b': nat, t': nat, l': nat)
    requires b < 0x2_0000_0000_0000 && b' < 0x2_0000_0000_0000
    requires t < 0x40 && t' < 0x40 && l < 0x100 && l' < 0x100
    ensures UniswapOrdinalIndex(b, t, l) < UniswapOrdinalIndex(b', t', l') <==>
              b < b' || (b == b' && (t < t' || (t == t' && l < l')))
  {
    SwapOfSmall(b, t, l);
    SwapOfSmall(b', t', l');
    PackedOrder(b, t * 0x100 + l, b', t' * 0x100 + l');
    LowOrder(t, l, t', l');
  }

  lemma SwapOfSmall(b: nat, t: nat, l: nat)
    requires b < 0x2_0000_0000_0000 && t < 0x40 && l < 0x100
    ensures UniswapOrdinalIndex(b, t, l) == b * 0x4000 + (t * 0x100 + l)
  {
    SwapValue(b, t, l);
    DivUnique(b, 0x2_0000_0000_0000, 0, b);
    DivUnique(t, 0x40, 0, t);
    DivUnique(l, 0x100, 0, l);
  }

  lemma LowOrder(high: nat, low: nat, high': nat, low': nat)
    requires low < 0x100 && low' < 0x100
    ensures high * 0x100 + low < high' * 0x100 + low' <==> high < high' || (high == high' && low < low')
    ensures high * 0x100 + low == high' * 0x100 + low' <==> high == high' && low == low'
  {
  }

  // --------------------------------------------------------- token transfers

  function XorByte(a: byte, b: byte): byte {
    assert Xor(a, b) < 256 by {
      assert Pow2(8) == 256;
      XorBounded(a, b, 8);
    }
    Xor(a, b)
  }

  /** The bytes of the log index, of which the node's 32 bits are used. */
  function LogBytes(log: nat): (b: seq<byte>)
    ensures |b| == 4
  {
    BigEndian(log % 0x1_0000_0000, 4)
  }

  /** The three lowest bytes: the hash of the transaction, varied by the index of the log
      and by the two bytes of the sequence number, low one first. */
  function Salt(hash: seq<byte>, log: seq<byte>, sequence: seq<byte>): (s: seq<byte>)
    requires IsHash(hash) && |log| == 4 && |sequence| == 2
    ensures |s| == 3
  {
    [XorByte(XorByte(hash[0], log[1]), sequence[1]),
     XorByte(XorByte(hash[1], log[2]), sequence[0]),
     XorByte(hash[2], log[3])]
  }

  /** 39 bits of the time stamp above 24 bits of salt. */
  function TokenOrdinal(stamp: nat, hash: seq<byte>, log: nat, sequence: nat): nat
    requires IsHash(hash)
  {
    stamp % 0x80_0000_0000 * 0x100_0000 + Value(Salt(hash, LogBytes(log), BigEndian(sequence, 2)))
  }

  /** Builds the index byte by byte: the time stamp shifted by 24 bits, then its last three
      bytes overwritten. */
  method OrdinalIndex(stamp: nat, hash: seq<byte>, log: nat, sequence: nat) returns (r: nat)
    requires IsHash(hash)
    ensures r == TokenOrdinal(stamp, hash, log, sequence)
  {
    var ordinal := new byte[8](_ => 0);
    Put(ordinal, 0, 8, ShiftLeft(And(stamp, STAMP_MASK), 24));
    ghost var before := ordinal[..];
    var logIndex := new byte[4](_ => 0);
    Put(logIndex, 0, 4, log % 0x1_0000_0000);
    var seqBytes := new byte[2](_ => 0);
    Put(seqBytes, 0, 2, sequence);
    assert before == BigEndian(ShiftLeft(And(stamp, STAMP_MASK), 24), 8) by { assert before == ordinal[0..8]; }
    assert logIndex[..] == LogBytes(log) by { assert logIndex[..] == logIndex[0..4]; }
    assert seqBytes[..] == BigEndian(sequence, 2) by { assert seqBytes[..] == seqBytes[0..2]; }
    AddSalt(ordinal, hash, logIndex, seqBytes);
    r := Value(ordinal[..]);
    SaltedValue(stamp, before, Salt(hash, LogBytes(log), BigEndian(sequence, 2)), ordinal[..]);
  }

  method AddSalt(ordinal: array<byte>, hash: seq<byte>, logIndex: array<byte>, seqBytes: array<byte>)
    requires IsHash(hash) && ordinal.Length == 8 && logIndex.Length == 4 && seqBytes.Length == 2
    requires ordinal != logIndex && ordinal != seqBytes
    modifies ordinal
    ensures ordinal[..] == old(ordinal[..5]) + Salt(hash, logIndex[..], seqBytes[..])
  {
    ordinal[5] := XorByte(XorByte(hash[0], logIndex[1]), seqBytes[1]);
    ordinal[6] := XorByte(XorByte(hash[1], logIndex[2]), seqBytes[0]);
    ordinal[7] := XorByte(hash[2], logIndex[3]);
  }

  lemma SaltedValue(stamp: nat, before: seq<byte>, salt: seq<byte>, after: seq<byte>)
    requires before == BigEndian(ShiftLeft(And(stamp, STAMP_MASK), 24), 8)
    requires |salt| == 3 && after == before[..5] + salt
    ensures Value(after) == stamp % 0x80_0000_0000 * 0x100_0000 + Value(salt)
  {
    var kept := stamp % 0x80_0000_0000;
    StampShifted(stamp);
    TopBytes(kept);
    assert Power(5) == 0x100_0000_0000;
    ValueOfBigEndian(kept, 5);
    ValueAppend(before[..5], salt);
  }

  lemma StampShifted(stamp: nat)
    ensures ShiftLeft(And(stamp, STAMP_MASK), 24) == stamp % 0x80_0000_0000 * 0x100_0000
  {
    var kept := stamp % 0x80_0000_0000;
    Mask39(stamp);
    Shift24(kept);
    DivUnique(kept, 0x100_0000_0000, 0, kept);
  }

  /** The five highest bytes of a number shifted by three bytes are the number's own. */
  lemma TopBytes(kept: nat)
    ensures BigEndian(kept * 0x100_0000, 8)[..5] == BigEndian(kept, 5)
  {
    assert kept * 0x100_0000 / 256 == kept * 0x1_0000;
    assert kept * 0x1_0000 / 256 == kept * 0x100;
    assert kept * 0x100 / 256 == kept;
    var b := BigEndian(kept * 0x100_0000, 8);
    assert b[..7] == BigEndian(kept * 0x1_0000, 7);
    assert b[..7][..6] == BigEndian(kept * 0x100, 6);
    assert b[..7][..6][..5] == BigEndian(kept, 5);
  }

  lemma ValueAppend(top: seq<byte>, salt: seq<byte>)
    requires |salt| == 3
    ensures Value(top + salt) == Value(top) * 0x100_0000 + Value(salt)
    ensures Value(salt) == salt[0] as int * 0x1_0000 + salt[1] as int * 0x100 + salt[2]
  {
    ValueOfThree(top, salt[0], salt[1], salt[2]);
    ValueOfThree([], salt[0], salt[1], salt[2]);
    assert top + salt == top + [salt[0]] + [salt[1]] + [salt[2]];
    assert salt == [] + [salt[0]] + [salt[1]] + [salt[2]];
  }

  lemma ValueOfThree(top: seq<byte>, x: byte, y: byte, z: byte)
    ensures Value(top + [x] + [y] + [z]) == Value(top) * 0x100_0000 + x as int * 0x1_0000 + y as int * 0x100 + z
  {
    var a, b, c := top + [x], top + [x] + [y], top + [x] + [y] + [z];
    assert Value(a) == Value(top) * 256 + x by { assert a[..|a| - 1] == top; }
    assert Value(b) == Value(a) * 256 + y by { assert b[..|b| - 1] == a; }
    assert Value(c) == Value(b) * 256 + z by { assert c[..|c| - 1] == b; }
  }

  /** The index of a transfer lies between those of its time stamp and of the next one. */
  lemma OrdinalOfStamp(stamp: nat, h: seq<byte>, l: nat, s: nat)
    requires IsHash(h)
    ensures var kept := stamp % 0x80_0000_0000;
            kept * 0x100_0000 <= TokenOrdinal(stamp, h, l, s) < (kept + 1) * 0x100_0000
  {
    ValueAppend([], Salt(h, LogBytes(l), BigEndian(s, 2)));
  }

  /** All transfers of one time stamp sort below all those of another. */
  ghost predicate SortsBelow(stamp: nat, stamp': nat) {
    forall h: seq<byte>, l: nat, s: nat, h': seq<byte>, l': nat, s': nat :: IsHash(h) && IsHash(h') ==>
      TokenOrdinal(stamp, h, l, s) < TokenOrdinal(stamp', h', l', s')
  }

  /** They do exactly if the low 39 bits of the time stamps are in that order. */
  lemma TimeKeptExactlyWhen(stamp: nat, stamp': nat)
    ensures SortsBelow(stamp, stamp') <==> stamp % 0x80_0000_0000 < stamp' % 0x80_0000_0000
  {
    if stamp % 0x80_0000_0000 < stamp' % 0x80_0000_0000 {
      forall h: seq<byte>, l: nat, s: nat, h': seq<byte>, l': nat, s': nat | IsHash(h) && IsHash(h')
        ensures TokenOrdinal(stamp, h, l, s) < TokenOrdinal(stamp', h', l', s')
      {
        OrdinalOfStamp(stamp, h, l, s);
        OrdinalOfStamp(stamp', h', l', s');
      }
    } else {
      var h: seq<byte> := seq(32, _ => 0);
      assert TokenOrdinal(stamp, h, 0, 0) >= TokenOrdinal(stamp', h, 0, 0);
    }
  }

  /** Two seconds of the documented 40 bits of which the later one sorts below the earlier. */
  lemma TimeLostExample()
    ensures SortsBelow(0x80_0000_0000, 0x7F_FFFF_FFFF) && !SortsBelow(0x7F_FFFF_FFFF, 0x80_0000_0000)
  {
    TimeKeptExactlyWhen(0x80_0000_0000, 0x7F_FFFF_FFFF);
    TimeKeptExactlyWhen(0x7F_FFFF_FFFF, 0x80_0000_0000);
  }

  /** So later transfers have larger indexes while time stamps fit into 39 bits. */
  lemma TokenKeepsTime(stamp: nat, stamp': nat)
    requires stamp < stamp' < 0x80_0000_0000
    ensures SortsBelow(stamp, stamp')
  {
    DivUnique(stamp, 0x80_0000_0000, 0, stamp);
    DivUnique(stamp', 0x80_0000_0000, 0, stamp');
    TimeKeptExactlyWhen(stamp, stamp');
  }

  /** Two transfers of one transaction collide exactly if, byte by byte, their log indexes
      differ just as the bytes of their sequence numbers do. */
  lemma TokenCollides(stamp: nat, hash: seq<byte>, l: nat, s: nat, l': nat, s': nat)
    requires IsHash(hash)
    ensures var (a, b, a', b') := (LogBytes(l), BigEndian(s, 2), LogBytes(l'), BigEndian(s', 2));
            TokenOrdinal(stamp, hash, l, s) == TokenOrdinal(stamp, hash, l', s') <==>
              && XorByte(a[1], b[1]) == XorByte(a'[1], b'[1])
              && XorByte(a[2], b[0]) == XorByte(a'[2], b'[0])
              && a[3] == a'[3]
  {
    var a, b, a', b' := LogBytes(l), BigEndian(s, 2), LogBytes(l'), BigEndian(s', 2);
    SameValue(Salt(hash, a, b), Salt(hash, a', b'));
    XorTwice(hash[0], a[1], b[1], a'[1], b'[1]);
    XorTwice(hash[1], a[2], b[0], a'[2], b'[0]);
    XorCancels(hash[2], a[3], a'[3]);
  }

  /** The first transfer of log 256 collides with the 257th of log 0. */
  lemma TokenCollisionExample(stamp: nat, hash: seq<byte>)
    requires IsHash(hash)
    ensures TokenOrdinal(stamp, hash, 256, 0) == TokenOrdinal(stamp, hash, 0, 256)
  {
    CollidingBytes();
    TokenCollides(stamp, hash, 256, 0, 0, 256);
  }

  lemma CollidingBytes()
    ensures LogBytes(256) == [0, 0, 1, 0] && LogBytes(0) == [0, 0, 0, 0]
    ensures BigEndian(256, 2) == [1, 0] && BigEndian(0, 2) == [0, 0]
    ensures XorByte(1, 0) == XorByte(0, 1)
  {
    assert BigEndian(256, 4) == BigEndian(1, 3) + [0];
    assert BigEndian(1, 3) == BigEndian(0, 2) + [1];
  }

  /** The bytes of a number from the lowest one up. */
  function ByteOf(x: nat, k: nat): byte {
    if k == 0 then x % 256 else ByteOf(x / 256, k - 1)
  }

  lemma {:induction false} ByteAt(x: nat, n: nat, k: nat)
    requires k < n
    ensures BigEndian(x, n)[n - 1 - k] == ByteOf(x, k)
  {
    if k > 0 {
      ByteAt(x / 256, n - 1, k - 1);
    }
  }

  lemma BytesOfLog(log: nat, sequence: nat)
    ensures var (a, b, l) := (LogBytes(log), BigEndian(sequence, 2), log % 0x1_0000_0000);
            && a[1] == ByteOf(l, 2) && a[2] == ByteOf(l, 1) && a[3] == ByteOf(l, 0)
            && b[0] == ByteOf(sequence, 1) && b[1] == ByteOf(sequence, 0)
  {
    ByteAt(log % 0x1_0000_0000, 4, 0);
    ByteAt(log % 0x1_0000_0000, 4, 1);
    ByteAt(log % 0x1_0000_0000, 4, 2);
    ByteAt(sequence, 2, 0);
    ByteAt(sequence, 2, 1);
  }

  /** What an index consists of: 39 bits of the time stamp, and the first three bytes of the hash, varied
      by the three low bytes of the log index and the two of the sequence number. */
  lemma TokenValue(stamp: nat, h: seq<byte>, l: nat, s: nat)
    requires IsHash(h)
    ensures var m := l % 0x1_0000_0000;
            TokenOrdinal(stamp, h, l, s) ==
            stamp % 0x80_0000_0000 * 0x100_0000
            + XorByte(XorByte(h[0], ByteOf(m, 2)), ByteOf(s, 0)) as int * 0x1_0000
            + XorByte(XorByte(h[1], ByteOf(m, 1)), ByteOf(s, 1)) as int * 0x100
            + XorByte(h[2], ByteOf(m, 0)) as int
  {
    BytesOfLog(l, s);
    ValueAppend([], Salt(h, LogBytes(l), BigEndian(s, 2)));
  }

  /** Two transfers of one second collide exactly if their hashes, varied by the bytes of log index
      and sequence number, agree in the first three bytes. */
  lemma TransfersCollide(stamp: nat, h: seq<byte>, l: nat, s: nat, h': seq<byte>, l': nat, s': nat)
    requires IsHash(h) && IsHash(h')
    ensures var (m, m') := (l % 0x1_0000_0000, l' % 0x1_0000_0000);
            TokenOrdinal(stamp, h, l, s) == TokenOrdinal(stamp, h', l', s') <==>
              && XorByte(XorByte(h[0], ByteOf(m, 2)), ByteOf(s, 0)) ==
                 XorByte(XorByte(h'[0], ByteOf(m', 2)), ByteOf(s', 0))
              && XorByte(XorByte(h[1], ByteOf(m, 1)), ByteOf(s, 1)) ==
                 XorByte(XorByte(h'[1], ByteOf(m', 1)), ByteOf(s', 1))
              && XorByte(h[2], ByteOf(m, 0)) == XorByte(h'[2], ByteOf(m', 0))
  {
    BytesOfLog(l, s);
    BytesOfLog(l', s');
    SameValue(Salt(h, LogBytes(l), BigEndian(s, 2)), Salt(h', LogBytes(l'), BigEndian(s', 2)));
  }

  /** In the same place of two transactions of one second they collide exactly if the hashes of these
      start with the same three bytes. */
  lemma TransactionsCollide(stamp: nat, h: seq<byte>, h': seq<byte>, l: nat, s: nat)
    requires IsHash(h) && IsHash(h')
    ensures TokenOrdinal(stamp, h, l, s) == TokenOrdinal(stamp, h', l, s) <==> h[..3] == h'[..3]
  {
    var m := l % 0x1_0000_0000;
    TransfersCollide(stamp, h, l, s, h', l, s);
    XorRightCancels(h[0], h'[0], ByteOf(m, 2));
    XorRightCancels(XorByte(h[0], ByteOf(m, 2)), XorByte(h'[0], ByteOf(m, 2)), ByteOf(s, 0));
    XorRightCancels(h[1], h'[1], ByteOf(m, 1));
    XorRightCancels(XorByte(h[1], ByteOf(m, 1)), XorByte(h'[1], ByteOf(m, 1)), ByteOf(s, 1));
    XorRightCancels(h[2], h'[2], ByteOf(m, 0));
    assert h[..3] == [h[0], h[1], h[2]] && h'[..3] == [h'[0], h'[1], h'[2]];
  }

  lemma XorTwice(h: byte, x: byte, y: byte, x': byte, y': byte)
    ensures XorByte(XorByte(h, x), y) == XorByte(XorByte(h, x'), y') <==> XorByte(x, y) == XorByte(x', y')
  {
    XorAssociates(h, x, y);
    XorAssociates(h, x', y');
    XorCancels(h, Xor(x, y), Xor(x', y'));
  }

  lemma SameValue(s: seq<byte>, t: seq<byte>)
    requires |s| == |t| == 3
    ensures Value(s) == Value(t) <==> s[0] == t[0] && s[1] == t[1] && s[2] == t[2]
  {
    ValueAppend([], s);
    ValueAppend([], t);
  }

  /** Within one transaction the index tells all transfers apart if the block has at most
      256 logs, or at most 65536 logs and batches of at most 256; the transfers of one log
      are always told apart. */
  lemma TokenDistinct(stamp: nat, hash: seq<byte>, l: nat, s: nat, l': nat, s': nat)
    requires IsHash(hash) && s < 0x1_0000 && s' < 0x1_0000
    requires (l < 0x100 && l' < 0x100) || (l < 0x1_0000 && l' < 0x1_0000 && s < 0x100 && s' < 0x100) || l == l'
    ensures TokenOrdinal(stamp, hash, l, s) == TokenOrdinal(stamp, hash, l', s') <==> l == l' && s == s'
  {
    var a, b, a', b' := LogBytes(l), BigEndian(s, 2), LogBytes(l'), BigEndian(s', 2);
    TokenCollides(stamp, hash, l, s, l', s');
    XorCancels(a[1], b[1], b'[1]);
    XorCancels(a[2], b[0], b'[0]);
    SameSequence(s, s');
    if l != l' {
      SmallLog(l);
      SmallLog(l');
      SmallSequence(s);
      SmallSequence(s');
    }
  }

  lemma SameSequence(s: nat, s': nat)
    requires s < 0x1_0000 && s' < 0x1_0000
    ensures s == s' <==> BigEndian(s, 2)[0] == BigEndian(s', 2)[0] && BigEndian(s, 2)[1] == BigEndian(s', 2)[1]
  {
  }

  lemma SmallLog(l: nat)
    requires l < 0x1_0000
    ensures LogBytes(l)[1] == 0 && LogBytes(l)[2] == l / 256 && LogBytes(l)[3] == l % 256
  {
    assert BigEndian(l, 4)[..3] == BigEndian(l / 256, 3);
    assert BigEndian(l / 256, 3)[..2] == BigEndian(0, 2);
    assert BigEndian(0, 2)[1] == 0;
  }

  lemma SmallSequence(s: nat)
    requires s < 0x1_0000
    ensures BigEndian(s, 2)[1] == s % 256
    ensures s < 0x100 ==> BigEndian(s, 2)[0] == 0
  {
  }

  // -------------------------------------------------------------------- keys

  /** The fourteen bytes of a key: block, log index and sequence number. */
  function KeyBytes(block: nat, log: nat, sequence: nat): seq<byte> {
    BigEndian(block, 8) + (LogBytes(log) + BigEndian(sequence, 2))
  }

  method Pk(block: nat, log: nat, sequence: nat) returns (key: string)
    ensures key == "0x" + Hex(KeyBytes(block, log, sequence))
  {
    var bytes := new byte[14](_ => 0);
    Put(bytes, 0, 8, block);
    ghost var first := bytes[0..8];
    Put(bytes, 8, 4, log % 0x1_0000_0000);
    assert bytes[..8] == first;
    ghost var second := bytes[8..12];
    Put(bytes, 12, 2, sequence);
    assert bytes[..12][..8] == first && bytes[..12][8..] == second;
    assert bytes[..] == first + (second + bytes[12..14]);
    key := "0x" + Hex(bytes[..]);
  }

  /** Keys are equal, and ordered as texts, exactly as block, log and sequence number are. */
  lemma KeyKeepsOrder(b: nat, l: nat, s: nat, b': nat, l': nat, s': nat)
    requires b < 0x1_0000_0000_0000_0000 && b' < 0x1_0000_0000_0000_0000
    requires l < 0x1_0000_0000 && l' < 0x1_0000_0000 && s < 0x1_0000 && s' < 0x1_0000
    ensures var k, k' := "0x" + Hex(KeyBytes(b, l, s)), "0x" + Hex(KeyBytes(b', l', s'));
            && (Precedes(k, k', CharLess) <==> b < b' || (b == b' && (l < l' || (l == l' && s < s'))))
            && (k == k' <==> b == b' && l == l' && s == s')
  {
    KeyBytesKeepOrder(b, l, s, b', l', s');
    HexKeepsOrder(KeyBytes(b, l, s), KeyBytes(b', l', s'));
    Prefixed(Hex(KeyBytes(b, l, s)), Hex(KeyBytes(b', l', s')));
  }

  lemma KeyBytesKeepOrder(b: nat, l: nat, s: nat, b': nat, l': nat, s': nat)
    requires b < 0x1_0000_0000_0000_0000 && b' < 0x1_0000_0000_0000_0000
    requires l < 0x1_0000_0000 && l' < 0x1_0000_0000 && s < 0x1_0000 && s' < 0x1_0000
    ensures Precedes(KeyBytes(b, l, s), KeyBytes(b', l', s'), ByteLess) <==>
              b < b' || (b == b' && (l < l' || (l == l' && s < s')))
    ensures KeyBytes(b, l, s) == KeyBytes(b', l', s') <==> b == b' && l == l' && s == s'
  {
    PowerValues();
    DivUnique(l, 0x1_0000_0000, 0, l);
    DivUnique(l', 0x1_0000_0000, 0, l');
    NumbersKeepOrder(b, l, s, b', l', s', 8, 4, 2);
  }

  /** Numbers of fixed widths, one after the other, are ordered as the tuples. */
  lemma {:induction false} NumbersKeepOrder(b: nat, l: nat, s: nat, b': nat, l': nat, s': nat,
                                            wb: nat, wl: nat, ws: nat)
    requires b < Power(wb) && b' < Power(wb) && l < Power(wl) && l' < Power(wl) && s < Power(ws) && s' < Power(ws)
    ensures var k, k' := BigEndian(b, wb) + (BigEndian(l, wl) + BigEndian(s, ws)),
                         BigEndian(b', wb) + (BigEndian(l', wl) + BigEndian(s', ws));
            && (Precedes(k, k', ByteLess) <==> b < b' || (b == b' && (l < l' || (l == l' && s < s'))))
            && (k == k' <==> b == b' && l == l' && s == s')
  {
    BigEndianKeepsOrder(b, b', wb);
    BigEndianKeepsOrder(l, l', wl);
    BigEndianKeepsOrder(s, s', ws);
    OrderOfParts(BigEndian(b, wb), BigEndian(l, wl), BigEndian(s, ws),
                 BigEndian(b', wb), BigEndian(l', wl), BigEndian(s', ws));
  }

  lemma OrderOfParts(a: seq<byte>, b: seq<byte>, c: seq<byte>,
                     a': seq<byte>, b': seq<byte>, c': seq<byte>)
    requires |a| == |a'| && |b| == |b'| && |c| == |c'|
    ensures Precedes(a + (b + c), a' + (b' + c'), ByteLess) <==>
              || Precedes(a, a', ByteLess)
              || (a == a' && (Precedes(b, b', ByteLess) || (b == b' && Precedes(c, c', ByteLess))))
    ensures a + (b + c) == a' + (b' + c') <==> a == a' && b == b' && c == c'
  {
    PrecedesAppend(b, c, b', c', ByteLess);
    PrecedesAppend(a, b + c, a', b' + c', ByteLess);
    SameParts(a, b, c, a', b', c');
  }

  lemma PowerValues()
    ensures Power(2) == 0x1_0000 && Power(4) == 0x1_0000_0000 && Power(8) == 0x1_0000_0000_0000_0000
  {
  }

  lemma SameParts(a: seq<byte>, b: seq<byte>, c: seq<byte>,
                  a': seq<byte>, b': seq<byte>, c': seq<byte>)
    requires |a| == |a'| && |b| == |b'| && |c| == |c'|
    ensures a + (b + c) == a' + (b' + c') <==> a == a' && b == b' && c == c'
  {
    var x, x' := a + (b + c), a' + (b' + c');
    assert x[..|a|] == a && x'[..|a|] == a';
    assert x[|a|..] == b + c && x'[|a|..] == b' + c';
    assert (b + c)[..|b|] == b && (b' + c')[..|b|] == b';
    assert (b + c)[|b|..] == c && (b' + c')[|b|..] == c';
  }

  lemma Prefixed(s: string, t: string)
    requires |s| == |t|
    ensures "0x" + s == "0x" + t <==> s == t
    ensures Precedes("0x" + s, "0x" + t, CharLess) <==> Precedes(s, t, CharLess)
  {
    assert ("0x" + s)[2..] == s && ("0x" + t)[2..] == t;
    assert "0x"[1..] == "x" && "x"[1..] == "";
    PrecedesAppend("0x", s, "0x", t, CharLess);
  }
}

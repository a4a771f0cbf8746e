/** The sponge of section 4 of FIPS 202 with the padding of its section 5.1.

    Beside the definitions, what the bytes fed at closing amount to (src/keccak.c:1607-1635): the
    extra bits, then a one, zeros and a one up to the end of a block, whether they share a byte, need
    two bytes or spill into another block. */
module KeccakSponge {
  import opened Arithmetic
  import opened Bytes
  import opened KeccakSpec
  import opened Sequences

  /** The bits of a run of bytes, the least significant of each first. */
  function BitsOf(m: seq<Byte>): (b: seq<bool>)
    ensures |b| == 8 * |m|
  {
    if m == [] then [] else BitsOf(m[..|m| - 1]) + Bits(m[|m| - 1], 8)
  }

  lemma {:induction false} BitsOfSum(m: seq<Byte>, n: seq<Byte>)
    ensures BitsOf(m + n) == BitsOf(m) + BitsOf(n)
  {
    if n == [] {
      assert m + n == m;
    } else {
      BitsOfSum(m, n[..|n| - 1]);
      assert (m + n)[..|m + n| - 1] == m + n[..|n| - 1];
    }
  }

  // ---------- The sponge ----------

  /** Lane (x, y) holds the 64 bits from 64(x + 5y) on (section 3.1.2). */
  function Place(k: nat): nat {
    k / 5 + 5 * (k % 5)
  }

  function String(a: Lanes): (s: seq<bool>)
    ensures |s| == 1600
  {
    seq(1600, z requires 0 <= z < 1600 => At(a, z / 64 % 5, z / 320)[z % 64])
  }

  /** The i-th run of 64 bits. */
  function Word(block: seq<bool>, i: nat): Lane
    requires 64 * i + 64 <= |block|
  {
    block[64 * i..64 * i + 64]
  }

  /** A block xored into the first lanes of the state. */
  function Mixed(a: Lanes, block: seq<bool>): Lanes {
    seq(25, k requires 0 <= k < 25 =>
      if 64 * Place(k) + 64 <= |block| then Xor(a[k], Word(block, Place(k))) else a[k])
  }

  function ZeroState(): Lanes {
    seq(25, _ => Zero())
  }

  /** The state after the blocks of r bits of p. */
  function Absorbed(r: nat, p: seq<bool>): Lanes
    requires r > 0 && |p| % r == 0
    decreases |p|
  {
    if p == [] then ZeroState()
    else
      MultipleLess(r, |p|);
      KeccakF(Mixed(Absorbed(r, p[..|p| - r]), p[|p| - r..]))
  }

  /** pad10*1: a one, the fewest zeros that fill the block, a one. */
  function Pad(r: nat, n: nat): seq<bool>
    requires r > 0
  {
    [true] + Repeat(false, (-(n + 2)) % r) + [true]
  }

  lemma PadFills(r: nat, n: nat)
    requires r > 0
    ensures (n + |Pad(r, n)|) % r == 0
  {
    FillUp(n + 2, r);
  }

  /** The first d bits the sponge gives for the message n with blocks of r bits; one block holds them. */
  function Sponge(r: nat, n: seq<bool>, d: nat): seq<bool>
    requires 0 < r && d <= 1600
  {
    PadFills(r, |n|);
    String(Absorbed(r, n + Pad(r, |n|)))[..d]
  }

  // ---------- The bytes fed at closing ----------

  /** The n extra bits: the highest ones of ub. */
  function Extra(ub: Byte, n: nat): seq<bool>
    requires n < 8
  {
    Bits(Quotient(ub, Pow2(8 - n)), n)
  }

  /** Bit 8 moves down to bit n, and the n highest bits of ub end up below it. */
  lemma EbIsMarked(ub: Byte, n: nat)
    requires n < 8
    ensures Pow2(n) <= 128 && Quotient(ub, Pow2(8 - n)) < Pow2(n)
    ensures Quotient(0x100 + ub, Pow2(8 - n)) == Pow2(n) + Quotient(ub, Pow2(8 - n))
  {
    Pow2Words();
    Pow2Sum(8 - n, n);
    Pow2Grows(n, 7);
    Pow2Next(7);
    ShiftMarked(ub, Pow2(8 - n), Pow2(n));
  }

  lemma ShiftMarked(v: nat, p: nat, m: nat)
    requires p > 0 && p * m == 0x100 && v < 0x100
    ensures (0x100 + v) / p == m + v / p && v / p < m
  {
    var q, r := v / p, v % p;
    assert v == p * q + r;
    assert p * (m + q) == p * m + p * q;
    ModUnique(0x100 + v, p, m + q, r);
    Scale(p, m - q);
    assert p * (m - q) == p * m - p * q;
  }

  /** (0x100 | ub) >> (8 - n); ub does not reach bit 8. */
  function Eb(ub: Byte, n: nat): (eb: Byte)
    requires n < 8
  {
    EbIsMarked(ub, n);
    Quotient(0x100 + ub, Pow2(8 - n))
  }

  lemma {:induction false} MarkedBits(v: nat, n: nat, k: nat)
    requires v < Pow2(n)
    ensures Bits(Pow2(n) + v, n + 1 + k) == Bits(v, n) + [true] + Repeat(false, k)
  {
    hide Bits, Pow2;
    BitsNext(Pow2(n) + v, n + k);
    if n == 0 {
      Pow2Next(0);
      ZeroBits(k);
      NoBits(v);
    } else {
      Pow2Next(n - 1);
      BitsNext(v, n - 1);
      var w := v / 2;
      assert Pow2(n) + v == 2 * (Pow2(n - 1) + w) + v % 2;
      MarkedBits(w, n - 1, k);
    }
  }

  lemma BitsNext(v: nat, n: nat)
    ensures Bits(v, n + 1) == [v % 2 == 1] + Bits(v / 2, n)
  {
  }

  lemma NoBits(v: nat)
    ensures Bits(v, 0) == []
  {
  }

  lemma {:induction false} ZeroBits(k: nat)
    ensures Bits(0, k) == Repeat(false, k)
  {
    if k != 0 {
      ZeroBits(k - 1);
    }
  }

  lemma EbBits(ub: Byte, n: nat)
    requires n < 8
    ensures Bits(Eb(ub, n), 8) == Extra(ub, n) + [true] + Repeat(false, 7 - n)
  {
    EbIsMarked(ub, n);
    hide Bits, Quotient;
    MarkedBits(Quotient(ub, Pow2(8 - n)), n, 7 - n);
  }

  /** What closing feeds when ptr bytes are buffered. */
  function Tail(lim: nat, ptr: nat, ub: Byte, n: nat): seq<Byte>
    requires ptr < lim && n < 8
  {
    if ptr == lim - 1 then
      if n == 7 then [Eb(ub, n)] + ZeroBytes(lim - 1) + [0x80] else [EbTopped(ub, n)]
    else [Eb(ub, n)] + ZeroBytes(lim - ptr - 2) + [0x80]
  }

  /** eb | 0x80: bit 7 is still clear. */
  function EbTopped(ub: Byte, n: nat): Byte
    requires n < 7
  {
    EbSmall(ub, n);
    Eb(ub, n) + 0x80
  }

  lemma EbSmall(ub: Byte, n: nat)
    requires n < 7
    ensures Eb(ub, n) < 128
  {
    EbIsMarked(ub, n);
    Pow2Grows(n, 6);
    Pow2Next(6);
    assert Pow2(6) == 64;
    hide Quotient;
  }

  lemma {:induction false} ZeroBytesBits(n: nat)
    ensures BitsOf(ZeroBytes(n)) == Repeat(false, 8 * n)
  {
    if n != 0 {
      ZeroBytesBits(n - 1);
      ZeroBits(8);
      assert ZeroBytes(n)[..n - 1] == ZeroBytes(n - 1);
    }
  }

  lemma OneByte(b: Byte)
    ensures BitsOf([b]) == Bits(b, 8)
  {
    assert [b][..0] == [];
    assert BitsOf([b]) == BitsOf([]) + Bits(b, 8);
  }

  lemma LongTail(ub: Byte, n: nat, m: nat)
    requires n < 8
    ensures BitsOf([Eb(ub, n)] + ZeroBytes(m) + [0x80]) ==
            Extra(ub, n) + ([true] + Repeat(false, 14 - n + 8 * m) + [true])
  {
    hide Bits, Eb, Extra, BitsOf;
    BitsOfSum([Eb(ub, n)] + ZeroBytes(m), [0x80]);
    BitsOfSum([Eb(ub, n)], ZeroBytes(m));
    OneByte(Eb(ub, n));
    OneByte(0x80);
    ZeroBytesBits(m);
    EbBits(ub, n);
    HighBit();
    assert Repeat(false, 7 - n) + Repeat(false, 8 * m) + Repeat(false, 7) == Repeat(false, 14 - n + 8 * m);
  }

  lemma HighBit()
    ensures Bits(0x80, 8) == Repeat(false, 7) + [true]
  {
    MarkedBits(0, 7, 0);
    ZeroBits(7);
  }

  lemma ShortTail(ub: Byte, n: nat)
    requires n < 7
    ensures BitsOf([EbTopped(ub, n)]) == Extra(ub, n) + ([true] + Repeat(false, 6 - n) + [true])
  {
    EbSmall(ub, n);
    var eb := Eb(ub, n);
    assert Pow2(7) == 128;
    hide Eb, Extra, Pow2;
    OneByte(eb + 0x80);
    MarkedBits(eb, 7, 0);
    EbBits(ub, n);
    TakeBits(eb, 8, 7);
    hide Bits;
    assert Bits(eb + 0x80, 8) == Bits(eb, 7) + [true];
    assert Bits(eb, 7) == Bits(eb, 8)[..7];
  }

  lemma {:induction false} TakeBits(v: nat, n: nat, m: nat)
    requires m <= n
    ensures Bits(v, n)[..m] == Bits(v, m)
  {
    if m != 0 {
      TakeBits(v / 2, n - 1, m - 1);
    }
  }

  lemma PadLength(r: nat, n: nat, q: nat, z: nat)
    requires r > 0 && n + 2 + z == r * (q + 1) && z < r
    ensures Pad(r, n) == [true] + Repeat(false, z) + [true]
  {
    assert -(n + 2) == r * -(q + 1) + z;
    ModUnique(-(n + 2), r, -(q + 1), z);
  }

  lemma PadTo(lim: nat, q: nat, m: nat, z: nat)
    requires lim > 0 && z < 8 * lim && (m + 2 + z == 8 * lim || m + 2 + z == 16 * lim)
    ensures Pad(8 * lim, 8 * (lim * q) + m) == [true] + Repeat(false, z) + [true]
  {
    hide Pad;
    if m + 2 + z == 8 * lim {
      assert 8 * lim * (q + 1) == 8 * (lim * q) + 8 * lim;
      PadLength(8 * lim, 8 * (lim * q) + m, q, z);
    } else {
      assert 8 * lim * (q + 2) == 8 * (lim * q) + 16 * lim;
      PadLength(8 * lim, 8 * (lim * q) + m, q + 1, z);
    }
  }

  lemma TailAt(lim: nat, q: nat, ptr: nat, ub: Byte, n: nat)
    requires ptr < lim && lim >= 2 && n < 8
    ensures BitsOf(Tail(lim, ptr, ub, n)) == Extra(ub, n) + Pad(8 * lim, 8 * (lim * q) + (8 * ptr + n))
  {
    hide Eb, Extra, BitsOf, Pad;
    if ptr == lim - 1 && n == 7 {
      LongTail(ub, n, lim - 1);
      PadTo(lim, q, 8 * ptr + n, 8 * lim - 1);
    } else if ptr == lim - 1 {
      ShortTail(ub, n);
      PadTo(lim, q, 8 * ptr + n, 6 - n);
    } else {
      LongTail(ub, n, lim - ptr - 2);
      PadTo(lim, q, 8 * ptr + n, 8 * (lim - ptr) - n - 2);
    }
  }

  /** The bytes fed are the extra bits and the padding of section 5.1. */
  lemma TailBits(lim: nat, fed: nat, ub: Byte, n: nat)
    requires lim >= 2 && n < 8
    ensures BitsOf(Tail(lim, fed % lim, ub, n)) == Extra(ub, n) + Pad(8 * lim, 8 * fed + n)
  {
    hide *;
    var q, ptr := fed / lim, fed % lim;
    assert fed == lim * q + ptr;
    TailAt(lim, q, ptr, ub, n);
    assert 8 * fed + n == 8 * (lim * q) + (8 * ptr + n);
  }
}

/** BLAKE with 32-bit words (src/blake.c:790-889): input in any pieces, and a closing that makes the
    counters of the last blocks come out right by setting the running counter back beforehand. */
module Blake {
  import opened Arithmetic
  import opened Bytes
  import opened Sequences

  /** The compression of a 64-byte block with the low and high counter words. */
  type Compress<!H> = (H, seq<Byte>, nat, nat) -> H

  /** The chaining value, the counter and the buffered bytes. */
  datatype State<H> = State(h: H, t: nat, buf: seq<Byte>)

  function Low(t: nat): nat {
    t % TWO_32
  }

  function High(t: nat): nat {
    t / TWO_32 % TWO_32
  }

  /** One full block: the counter moves first, and wraps around. */
  function Block<H>(c: Compress<H>, s: State<H>, block: seq<Byte>): State<H> {
    var t := (s.t + 512) % TWO_64;
    State(c(s.h, block, Low(t), High(t)), t, [])
  }

  /** Buffering data and compressing every block that fills up. */
  function Feed<H>(c: Compress<H>, s: State<H>, data: seq<Byte>): (r: State<H>)
    requires |s.buf| < 64
    ensures |r.buf| < 64
    decreases |s.buf| + |data|
  {
    var all := s.buf + data;
    if |all| < 64 then s.(buf := all)
    else Feed(c, Block(c, s, all[..64]), all[64..])
  }

  /** How the input is split does not matter. */
  lemma {:induction false} FeedSplit<H>(c: Compress<H>, s: State<H>, a: seq<Byte>, b: seq<Byte>)
    requires |s.buf| < 64
    ensures Feed(c, Feed(c, s, a), b) == Feed(c, s, a + b)
    decreases |s.buf| + |a|
  {
    var all := s.buf + a;
    assert s.buf + (a + b) == all + b;
    if |all| >= 64 {
      var next := Block(c, s, all[..64]);
      FeedSplit(c, next, all[64..], b);
      assert (all + b)[..64] == all[..64] && (all + b)[64..] == all[64..] + b;
    }
  }

  /** The fold over the blocks of m, each with the number of bits up to its end. */
  function Chained<H>(c: Compress<H>, iv: H, m: seq<Byte>): H
    requires |m| % 64 == 0
  {
    if m == [] then iv
    else
      var k := |m| - 64;
      c(Chained(c, iv, m[..k]), m[k..], Low(8 * |m|), High(8 * |m|))
  }

  lemma {:induction false} FeedBlocks<H>(c: Compress<H>, iv: H, m: seq<Byte>)
    requires |m| % 64 == 0
    ensures Feed(c, State(iv, 0, []), m) == State(Chained(c, iv, m), 8 * |m| % TWO_64, [])
    decreases |m|
  {
    if m == [] {
      FeedLittle(c, State(iv, 0, []), m);
    } else {
      var j := |m| - 64;
      var done, block := m[..j], m[j..];
      FeedBlocks(c, iv, done);
      assert m == done + block;
      hide Feed, Chained;
      FeedSplit(c, State(iv, 0, []), done, block);
      OneBlock(c, State(Chained(c, iv, done), 8 * j % TWO_64, []), block);
      CounterMod(8 * j);
      ChainedLast(c, iv, m);
    }
  }

  lemma ChainedLast<H>(c: Compress<H>, iv: H, m: seq<Byte>)
    requires |m| % 64 == 0 && m != []
    ensures var k := |m| - 64; Chained(c, iv, m) == c(Chained(c, iv, m[..k]), m[k..], Low(8 * |m|), High(8 * |m|))
  {
  }

  lemma FeedLittle<H>(c: Compress<H>, s: State<H>, data: seq<Byte>)
    requires |s.buf| + |data| < 64
    ensures Feed(c, s, data) == s.(buf := s.buf + data)
  {
  }

  /** Feeding from the start is that fold over the full blocks, and the rest stays buffered. */
  lemma FeedChains<H>(c: Compress<H>, iv: H, done: seq<Byte>, rest: seq<Byte>)
    requires |done| % 64 == 0 && |rest| < 64
    ensures Feed(c, State(iv, 0, []), done + rest) == State(Chained(c, iv, done), 8 * |done| % TWO_64, rest)
  {
    hide Feed, Chained;
    FeedBlocks(c, iv, done);
    FeedSplit(c, State(iv, 0, []), done, rest);
    FeedLittle(c, State(Chained(c, iv, done), 8 * |done| % TWO_64, []), rest);
    assert [] + rest == rest;
  }

  lemma OneBlock<H>(c: Compress<H>, s: State<H>, data: seq<Byte>)
    requires s.buf == [] && |data| == 64
    ensures Feed(c, s, data) == Block(c, s, data)
  {
    assert [] + data == data;
    assert data[..64] == data && data[64..] == [];
    FeedLittle(c, Block(c, s, data), []);
  }

  /** The counter words of a bit count do not see the wrap-around. */
  lemma CounterMod(t: nat)
    ensures (t % TWO_64 + 512) % TWO_64 == (t + 512) % TWO_64
    ensures Low((t + 512) % TWO_64) == Low(t + 512) && High((t + 512) % TWO_64) == High(t + 512)
  {
    AddMod(t, TWO_64);
    WordsMod(t + 512);
  }

  lemma AddMod(t: nat, m: nat)
    requires m > 512
    ensures (t % m + 512) % m == (t + 512) % m
  {
    var q, r := t / m, t % m;
    assert t == m * q + r;
    if r + 512 < m {
      ModUnique(t + 512, m, q, r + 512);
      ModUnique(r + 512, m, 0, r + 512);
    } else {
      assert m * (q + 1) == m * q + m;
      ModUnique(t + 512, m, q + 1, r + 512 - m);
      ModUnique(r + 512, m, 1, r + 512 - m);
    }
  }

  lemma WordsMod(n: nat)
    ensures Low(n % TWO_64) == Low(n) && High(n % TWO_64) == High(n)
  {
    var q, r := n / TWO_64, n % TWO_64;
    var a, b := r / TWO_32, r % TWO_32;
    assert n == TWO_64 * q + r && r == TWO_32 * a + b;
    ModUnique(n, TWO_32, TWO_32 * q + a, b);
    ModUnique(TWO_32 * q + a, TWO_32, q, a);
  }

  // ---------- The padding of section 2.1.3 ----------

  /** The k lowest bits of v, the most significant first. */
  function Bits(v: nat, k: nat): (b: seq<bool>)
    ensures |b| == k
  {
    if k == 0 then [] else Bits(v / 2, k - 1) + [v % 2 == 1]
  }

  function BitsOf(m: seq<Byte>): (b: seq<bool>)
    ensures |b| == 8 * |m|
  {
    if m == [] then [] else BitsOf(m[..|m| - 1]) + Bits(m[|m| - 1], 8)
  }

  lemma {:induction false} BitsOfSum(m: seq<Byte>, n: seq<Byte>)
    ensures BitsOf(m + n) == BitsOf(m) + BitsOf(n)
  {
    if n == [] {
      assert m + n == m;
    } else {
      BitsOfSum(m, n[..|n| - 1]);
      assert (m + n)[..|m + n| - 1] == m + n[..|n| - 1];
    }
  }

  /** The extra bits: the n highest ones of ub. */
  function Extra(ub: Byte, n: nat): seq<bool>
    requires n < 8
  {
    Bits(Quotient(ub, Pow2(8 - n)), n)
  }

  /** A one, zeros until the length is 447 modulo 512, the flag, and the length in 64 bits. */
  function Padding(len: nat, flag: bool): seq<bool> {
    [true] + Repeat(false, (446 - len) % 512) + [flag] + Bits(len, 64)
  }

  /** ((ub & -z) | z) & 0xFF with z = 0x80 >> n: the n highest bits, a one, zeros. */
  function Marked(ub: Byte, n: nat): (b: Byte)
    requires n < 8
  {
    MarkedFits(ub, n);
    Quotient(ub, Pow2(8 - n)) * Pow2(8 - n) + Pow2(7 - n)
  }

  lemma MarkedFits(ub: Byte, n: nat)
    requires n < 8
    ensures Pow2(8 - n) > 0 && Quotient(ub, Pow2(8 - n)) < Pow2(n)
    ensures Quotient(ub, Pow2(8 - n)) * Pow2(8 - n) + Pow2(7 - n) < 256
  {
    var x := Pow2(8 - n);
    assert Pow2(8) == 2 * Pow2(7) && Pow2(7) == 2 * Pow2(6) && Pow2(6) == 2 * Pow2(5);
    assert n == 0 ==> Pow2(n) == 1;
  }

  lemma {:induction false} MarkedBits(v: nat, n: nat, k: nat)
    ensures Bits(v * Pow2(k + 1) + Pow2(k), n + 1 + k) == Bits(v, n) + [true] + Repeat(false, k)
  {
    hide Bits, Pow2;
    var w := v * Pow2(k) + if k == 0 then 0 else Pow2(k - 1);
    Pow2Next(k);
    BitsNext(v * Pow2(k + 1) + Pow2(k), n + k);
    Associate(v, 2, Pow2(k));
    Associate(2, v, Pow2(k));
    if k == 0 {
      assert Bits(v, n) + [true] + Repeat(false, 0) == Bits(v, n) + [true];
    } else {
      Pow2Next(k - 1);
      MarkedBits(v, n, k - 1);
      assert v * Pow2(k + 1) + Pow2(k) == 2 * w;
      assert Repeat(false, k) == Repeat(false, k - 1) + [false];
    }
  }

  lemma {:induction false} ZeroBits(k: nat)
    ensures Bits(0, k) == Repeat(false, k)
  {
    if k != 0 {
      ZeroBits(k - 1);
    }
  }

  lemma {:induction false} DigitBits(v: nat, k: nat)
    ensures BitsOf(Digits(v, k)) == Bits(v, 8 * k)
  {
    if k != 0 {
      DigitBits(v / 256, k - 1);
      assert Digits(v, k)[..k - 1] == Digits(v / 256, k - 1);
      SplitBits(v, 8 * (k - 1), 8);
      Pow2Words();
    }
  }

  /** The bits of a number are those of its quotient and those of its remainder. */
  lemma {:induction false} SplitBits(v: nat, j: nat, k: nat)
    ensures Bits(v, j + k) == Bits(Quotient(v, Pow2(k)), j) + Bits(v % Pow2(k), k)
  {
    hide Quotient;
    if k == 0 {
      assert Bits(v, j) + [] == Bits(v, j);
    } else {
      SplitBits(v / 2, j, k - 1);
      HalfSplit(v, Pow2(k - 1));
      var low := v % Pow2(k);
      assert Bits(low, k) == Bits(low / 2, k - 1) + [low % 2 == 1];
      assert Bits(v, j + k) == Bits(v / 2, j + k - 1) + [v % 2 == 1];
    }
  }

  lemma HalfSplit(v: nat, p: nat)
    requires p > 0
    ensures v / (2 * p) == v / 2 / p && v % (2 * p) / 2 == v / 2 % p && v % (2 * p) % 2 == v % 2
  {
    var h, b := v / 2, v % 2;
    var q, r := h / p, h % p;
    assert v == 2 * h + b && h == p * q + r;
    assert v == 2 * p * q + (2 * r + b) by {
      Associate(2, p, q);
    }
    ModUnique(v, 2 * p, q, 2 * r + b);
  }

  lemma LengthBits(th: nat, tl: nat)
    requires th < TWO_32 && tl < TWO_32
    ensures BitsOf(Digits(th, 4) + Digits(tl, 4)) == Bits(th * TWO_32 + tl, 64)
  {
    hide Bits, BitsOf, Digits, Pow2;
    Pow2Words();
    BitsOfSum(Digits(th, 4), Digits(tl, 4));
    DigitBits(th, 4);
    DigitBits(tl, 4);
    SplitBits(th * TWO_32 + tl, 32, 32);
    ModUnique(TWO_32 * th + tl, TWO_32, th, tl);
  }

  lemma {:induction false} ZeroBytesBits(k: nat)
    ensures BitsOf(ZeroBytes(k)) == Repeat(false, 8 * k)
  {
    if k != 0 {
      ZeroBytesBits(k - 1);
      ZeroBits(8);
      assert ZeroBytes(k)[..k - 1] == ZeroBytes(k - 1);
    }
  }

  function FlagByte(flag: bool): Byte {
    if flag then 1 else 0
  }

  lemma FlagBits(flag: bool)
    ensures BitsOf([FlagByte(flag)]) == Repeat(false, 7) + [flag]
  {
    hide Bits, BitsOf;
    ZeroBits(7);
    OneByte(FlagByte(flag));
    BitsNext(FlagByte(flag), 7);
  }

  lemma OneByte(b: Byte)
    ensures BitsOf([b]) == Bits(b, 8)
  {
    assert [b][..0] == [];
    assert BitsOf([b]) == BitsOf([]) + Bits(b, 8);
  }

  lemma MarkedByte(ub: Byte, n: nat)
    requires n < 8
    ensures BitsOf([Marked(ub, n)]) == Extra(ub, n) + [true] + Repeat(false, 7 - n)
  {
    OneByte(Marked(ub, n));
    MarkedBits(Quotient(ub, Pow2(8 - n)), n, 7 - n);
  }

  /** The bytes from ptr on, when the length still fits into the block and when it does not. */
  function Tail(ptr: nat, ub: Byte, n: nat, flag: bool, th: nat, tl: nat): (tail: seq<Byte>)
    requires ptr < 64 && n < 8
    ensures (ptr + |tail|) % 64 == 0
  {
    var len := Digits(th, 4) + Digits(tl, 4);
    if 8 * ptr + n <= 446 then
      if ptr == 55 then [Flagged(ub, n, flag)] + len
      else [Marked(ub, n)] + ZeroBytes(54 - ptr) + [FlagByte(flag)] + len
    else [Marked(ub, n)] + ZeroBytes(63 - ptr) + (ZeroBytes(55) + [FlagByte(flag)] + len)
  }

  /** The marker and the flag in one byte. */
  function Flagged(ub: Byte, n: nat, flag: bool): Byte
    requires n < 7
  {
    EvenMarked(ub, n);
    Marked(ub, n) + FlagByte(flag)
  }

  lemma EvenMarked(ub: Byte, n: nat)
    requires n < 7
    ensures Marked(ub, n) % 2 == 0 && Marked(ub, n) + 1 < 256
  {
    assert Pow2(7 - n) == 2 * Pow2(6 - n) && Pow2(8 - n) == 2 * Pow2(7 - n);
    var q := Quotient(ub, Pow2(8 - n));
    Associate(q, 2, Pow2(7 - n));
    assert q * Pow2(8 - n) == 2 * (q * Pow2(7 - n)) by {
      assert q * 2 == 2 * q;
      Associate(2, q, Pow2(7 - n));
    }
    ModUnique(Marked(ub, n), 2, q * Pow2(7 - n) + Pow2(6 - n), 0);
  }

  lemma FlaggedBits(ub: Byte, n: nat, flag: bool)
    requires n < 7
    ensures BitsOf([Flagged(ub, n, flag)]) == Extra(ub, n) + [true] + Repeat(false, 6 - n) + [flag]
  {
    hide Marked, Extra, BitsOf;
    EvenMarked(ub, n);
    var m := Marked(ub, n);
    MarkedByte(ub, n);
    OneByte(m);
    OneByte(Flagged(ub, n, flag));
    LastBit(m, flag);
    hide Bits, Flagged;
    var e := Extra(ub, n) + [true] + Repeat(false, 7 - n);
    assert e[..7] == Extra(ub, n) + [true] + Repeat(false, 6 - n);
    assert Bits(m / 2, 7) == (Bits(m / 2, 7) + [false])[..7];
  }

  lemma LastBit(m: nat, flag: bool)
    requires m % 2 == 0
    ensures Bits(m, 8) == Bits(m / 2, 7) + [false] && Bits(m + FlagByte(flag), 8) == Bits(m / 2, 7) + [flag]
  {
    hide Bits;
    BitsNext(m, 7);
    BitsNext(m + FlagByte(flag), 7);
    assert (m + FlagByte(flag)) / 2 == m / 2;
  }

  lemma BitsNext(v: nat, k: nat)
    ensures Bits(v, k + 1) == Bits(v / 2, k) + [v % 2 == 1]
  {
  }

  lemma PaddingIs(len: nat, q: nat, bitLen: nat, zeros: nat, flag: bool)
    requires len == 512 * q + bitLen && bitLen < 512
    requires zeros < 512 && (bitLen + zeros == 446 || bitLen + zeros == 958)
    ensures Padding(len, flag) == [true] + Repeat(false, zeros) + [flag] + Bits(len, 64)
  {
    ModUnique(446 - len, 512, if bitLen + zeros == 446 then 0 - q else 0 - q - 1, zeros);
  }

  /** The last bytes as bits, z zeros between the marker and the flag. */
  function Ending(ub: Byte, n: nat, z: nat, flag: bool, th: nat, tl: nat): seq<bool>
    requires n < 8
  {
    Extra(ub, n) + ([true] + Repeat(false, z) + [flag] + Bits(th * TWO_32 + tl, 64))
  }

  lemma EndingAt55(ub: Byte, n: nat, flag: bool, th: nat, tl: nat)
    requires n < 7 && th < TWO_32 && tl < TWO_32
    ensures BitsOf([Flagged(ub, n, flag)] + (Digits(th, 4) + Digits(tl, 4))) == Ending(ub, n, 6 - n, flag, th, tl)
  {
    hide Bits, BitsOf, Flagged, Extra, Digits;
    LengthBits(th, tl);
    FlaggedBits(ub, n, flag);
    BitsOfSum([Flagged(ub, n, flag)], Digits(th, 4) + Digits(tl, 4));
    var e, l := Extra(ub, n), Bits(th * TWO_32 + tl, 64);
    assert e + [true] + Repeat(false, 6 - n) + [flag] + l == e + ([true] + Repeat(false, 6 - n) + [flag] + l);
  }

  lemma EndingBefore55(ub: Byte, n: nat, k: nat, flag: bool, th: nat, tl: nat)
    requires n < 8 && th < TWO_32 && tl < TWO_32
    ensures BitsOf([Marked(ub, n)] + ZeroBytes(k) + [FlagByte(flag)] + (Digits(th, 4) + Digits(tl, 4)))
         == Ending(ub, n, 7 - n + 8 * k + 7, flag, th, tl)
  {
    hide Bits, BitsOf, Marked, Extra, Digits;
    LengthBits(th, tl);
    MarkedByte(ub, n);
    FlagBits(flag);
    ZeroBytesBits(k);
    FourRuns([Marked(ub, n)], ZeroBytes(k), [FlagByte(flag)], Digits(th, 4) + Digits(tl, 4));
    JoinZeros(Extra(ub, n), 7 - n, 8 * k, 7, flag, Bits(th * TWO_32 + tl, 64));
  }

  lemma EndingTwoBlocks(ub: Byte, n: nat, k: nat, flag: bool, th: nat, tl: nat)
    requires n < 8 && th < TWO_32 && tl < TWO_32
    ensures BitsOf([Marked(ub, n)] + ZeroBytes(k)
                   + (ZeroBytes(55) + [FlagByte(flag)] + (Digits(th, 4) + Digits(tl, 4))))
         == Ending(ub, n, 7 - n + 8 * k + 440 + 7, flag, th, tl)
  {
    hide Bits, BitsOf, Marked, Extra, Digits;
    LengthBits(th, tl);
    MarkedByte(ub, n);
    FlagBits(flag);
    ZeroBytesBits(k);
    ZeroBytesBits(55);
    var len := Digits(th, 4) + Digits(tl, 4);
    BitsOfSum([Marked(ub, n)] + ZeroBytes(k), ZeroBytes(55) + [FlagByte(flag)] + len);
    BitsOfSum([Marked(ub, n)], ZeroBytes(k));
    BitsOfSum(ZeroBytes(55) + [FlagByte(flag)], len);
    BitsOfSum(ZeroBytes(55), [FlagByte(flag)]);
    JoinMore(Extra(ub, n), 7 - n, 8 * k, 440, flag, Bits(th * TWO_32 + tl, 64));
  }

  /** The bytes fed at the end are the extra bits and the padding. */
  lemma TailBits(q: nat, ptr: nat, ub: Byte, n: nat, flag: bool, th: nat, tl: nat)
    requires ptr < 64 && n < 8 && th < TWO_32 && tl < TWO_32
    requires th * TWO_32 + tl == 512 * q + (8 * ptr + n)
    ensures BitsOf(Tail(ptr, ub, n, flag, th, tl)) == Extra(ub, n) + Padding(th * TWO_32 + tl, flag)
  {
    hide Bits, BitsOf, Marked, Flagged, Extra, Padding, Digits, Ending, ZeroBytes, FlagByte;
    if 8 * ptr + n <= 446 {
      EndingIs(q, 8 * ptr + n, 446 - (8 * ptr + n), ub, n, flag, th, tl);
      if ptr == 55 {
        EndingAt55(ub, n, flag, th, tl);
      } else {
        EndingBefore55(ub, n, 54 - ptr, flag, th, tl);
      }
    } else {
      EndingIs(q, 8 * ptr + n, 958 - (8 * ptr + n), ub, n, flag, th, tl);
      EndingTwoBlocks(ub, n, 63 - ptr, flag, th, tl);
    }
  }

  lemma EndingIs(q: nat, bitLen: nat, z: nat, ub: Byte, n: nat, flag: bool, th: nat, tl: nat)
    requires n < 8 && th * TWO_32 + tl == 512 * q + bitLen && bitLen < 512
    requires z < 512 && (bitLen + z == 446 || bitLen + z == 958)
    ensures Ending(ub, n, z, flag, th, tl) == Extra(ub, n) + Padding(th * TWO_32 + tl, flag)
  {
    hide Bits, Extra, Padding;
    PaddingIs(th * TWO_32 + tl, q, bitLen, z, flag);
  }

  lemma FourRuns(a: seq<Byte>, b: seq<Byte>, c: seq<Byte>, d: seq<Byte>)
    ensures BitsOf(a + b + c + d) == BitsOf(a) + BitsOf(b) + BitsOf(c) + BitsOf(d)
  {
    hide BitsOf;
    BitsOfSum(a + b + c, d);
    BitsOfSum(a + b, c);
    BitsOfSum(a, b);
  }

  lemma JoinZeros(e: seq<bool>, i: nat, j: nat, k: nat, flag: bool, l: seq<bool>)
    ensures (e + [true] + Repeat(false, i)) + Repeat(false, j) + (Repeat(false, k) + [flag]) + l ==
            e + ([true] + Repeat(false, i + j + k) + [flag] + l)
  {
    assert Repeat(false, i) + Repeat(false, j) + Repeat(false, k) == Repeat(false, i + j + k);
  }

  lemma JoinMore(e: seq<bool>, i: nat, j: nat, k: nat, flag: bool, l: seq<bool>)
    ensures ((e + [true] + Repeat(false, i)) + Repeat(false, j))
            + ((Repeat(false, k) + (Repeat(false, 7) + [flag])) + l) ==
            e + ([true] + Repeat(false, i + j + k + 7) + [flag] + l)
  {
    assert Repeat(false, i) + Repeat(false, j) + Repeat(false, k) + Repeat(false, 7) == Repeat(false, i + j + k + 7);
  }

  // ---------- The counters of the last blocks ----------

  /** The message bits through block i, or zero when it holds none: the counter of section 2.1.3. */
  function Counter(i: nat, len: nat): nat {
    if 512 * i >= len then 0 else if 512 * (i + 1) < len then 512 * (i + 1) else len
  }

  /** The hash of the padded bytes p of a message of len bits. */
  function Hashed<H>(c: Compress<H>, iv: H, p: seq<Byte>, len: nat): H
    requires |p| % 64 == 0
  {
    if p == [] then iv
    else
      var k := |p| - 64;
      var t := Counter(k / 64, len);
      c(Hashed(c, iv, p[..k], len), p[k..], Low(t), High(t))
  }

  lemma {:induction false} FullBlocks<H>(c: Compress<H>, iv: H, m: seq<Byte>, len: nat)
    requires |m| % 64 == 0 && 8 * |m| <= len
    ensures Hashed(c, iv, m, len) == Chained(c, iv, m)
  {
    hide Low, High;
    if m != [] {
      FullCounter(|m| - 64, len);
      FullBlocks(c, iv, m[..|m| - 64], len);
      hide Counter;
    }
  }

  lemma FullCounter(k: nat, len: nat)
    requires k % 64 == 0 && 8 * (k + 64) <= len
    ensures Counter(k / 64, len) == 8 * (k + 64)
  {
  }

  lemma HashedMore<H>(c: Compress<H>, iv: H, p: seq<Byte>, block: seq<Byte>, len: nat)
    requires |p| % 64 == 0 && |block| == 64
    ensures var t := Counter(|p| / 64, len);
            Hashed(c, iv, p + block, len) == c(Hashed(c, iv, p, len), block, Low(t), High(t))
  {
    var all := p + block;
    assert all[..|p|] == p && all[|p|..] == block;
  }

  /** The running counter that closing puts in place of t. */
  function SetBack(t: nat, bitLen: nat): (r: nat)
    requires t < TWO_64
    ensures r < TWO_64
  {
    if bitLen == 0 then TWO_64 - 512 else (t + bitLen + TWO_64 - 512) % TWO_64
  }

  lemma CountsOnce(q: nat, bitLen: nat)
    requires bitLen < 512 && 512 * q + bitLen < TWO_64
    ensures (SetBack(512 * q, bitLen) + 512) % TWO_64 == Counter(q, 512 * q + bitLen)
  {
    if bitLen != 0 {
      AddMod(512 * q + bitLen + TWO_64 - 512, TWO_64);
    }
  }

  class Blake<!H> {
    const compress: Compress<H>
    const iv: H
    var h: H
    var t0: nat
    var t1: nat
    var buf: array<Byte>
    var ptr: nat
    /** Every byte fed since the start. */
    ghost var fed: seq<Byte>

    predicate Shape()
      reads this
    {
      buf.Length == 64 && ptr < 64 && t0 < TWO_32 && t1 < TWO_32
    }

    function View(): State<H>
      requires Shape()
      reads this, buf
    {
      State(h, t1 * TWO_32 + t0, buf[..ptr])
    }

    ghost predicate Valid()
      reads this, buf
    {
      Shape() && View() == Feed(compress, State(iv, 0, []), fed)
    }

    constructor (compress: Compress<H>, iv: H)
      ensures Valid() && fed == [] && this.compress == compress && this.iv == iv && fresh(buf)
    {
      this.compress, this.iv, h := compress, iv, iv;
      t0, t1, ptr, fed := 0, 0, 0, [];
      buf := new Byte[64](_ => 0);
    }

    /** blake32: the buffer filled and compressed as often as the data lasts. */
    method Core(data: seq<Byte>)
      requires Shape()
      modifies this`h, this`t0, this`t1, this`ptr, buf
      ensures Shape() && View() == Feed(compress, old(View()), data)
    {
      hide Feed;
      if |data| < 64 - ptr {
        Memcpy(buf, ptr, data);
        FeedLittle(compress, old(View()), data);
        ptr := ptr + |data|;
        return;
      }
      var rest := data;
      NothingFed(compress, View());
      while |rest| > 0
        invariant Shape() && Feed(compress, View(), rest) == Feed(compress, old(View()), data)
      {
        var clen := 64 - ptr;
        if clen > |rest| {
          clen := |rest|;
        }
        ghost var before := View();
        Fill(rest[..clen]);
        FeedSplit(compress, before, rest[..clen], rest[clen..]);
        assert rest == rest[..clen] + rest[clen..];
        rest := rest[clen..];
      }
      NothingFed(compress, View());
    }

    /** The body of its loop: at most what the buffer has room for. */
    method Fill(chunk: seq<Byte>)
      requires Shape() && |chunk| <= 64 - ptr
      modifies this`h, this`t0, this`t1, this`ptr, buf
      ensures Shape() && View() == Feed(compress, old(View()), chunk)
    {
      hide Feed;
      ghost var before := View();
      Memcpy(buf, ptr, chunk);
      ptr := ptr + |chunk|;
      if ptr == 64 {
        FeedFull(compress, before, chunk);
        CounterWords(t0, t1);
        t0 := (t0 + 512) % TWO_32;
        if t0 < 512 {
          t1 := (t1 + 1) % TWO_32;
        }
        assert buf[..] == before.buf + chunk;
        h := compress(h, buf[..], t0, t1);
        ptr := 0;
        assert buf[..0] == [];
      } else {
        FeedLittle(compress, before, chunk);
      }
    }

    /** Input in any pieces. */
    method Update(data: seq<Byte>)
      requires Valid()
      modifies this, buf
      ensures Valid() && fed == old(fed) + data && buf == old(buf)
    {
      hide Feed;
      Core(data);
      FeedSplit(compress, State(iv, 0, []), fed, data);
      fed := fed + data;
    }

    /** blake32_close: p is the padded message, its length in bits without the padding below 2^64. */
    method Close(ub: Byte, n: nat, flag: bool) returns (ghost p: seq<Byte>)
      requires Valid() && n < 8 && 8 * |fed| + n < TWO_64
      modifies this, buf
      ensures |p| % 64 == 0 && BitsOf(p) == BitsOf(old(fed)) + Extra(ub, n) + Padding(8 * |old(fed)| + n, flag)
      ensures h == Hashed(compress, iv, p, 8 * |old(fed)| + n)
    {
      hide Feed, Chained, Hashed, Marked, Bits, BitsOf, Extra, Padding, SetBack, Counter, Digits, Tail;
      ghost var k, len := |fed| - |fed| % 64, 8 * |fed| + n;
      ghost var q := Whole(|fed|);
      ghost var done, rest := fed[..k], fed[k..];
      assert fed == done + rest;
      Started(compress, iv, done, rest, View(), q);
      FullBlocks(compress, iv, done, len);
      var bitLen := 8 * ptr + n;
      var tl := (t0 + bitLen) % TWO_32;
      var th := t1;
      NoCarry(t0, t1, q, bitLen);
      SetCounterBack(bitLen, n);
      CountsOnce(q, bitLen);
      p := Padded(done, rest, ub, n, flag, th, tl, q);
      if bitLen <= 446 {
        FinishOne(ub, n, flag, th, tl, done, rest, q, len);
      } else {
        FinishTwo(ub, n, flag, th, tl, done, rest, q, len);
      }
    }

    method SetCounterBack(bitLen: nat, n: nat)
      requires Shape() && t0 % 512 == 0 && bitLen == 8 * ptr + n && bitLen < 512
      modifies this`t0, this`t1
      ensures Shape() && t1 * TWO_32 + t0 == SetBack(old(t1) * TWO_32 + old(t0), bitLen)
    {
      hide SetBack;
      SetBackWords(t0, t1, bitLen);
      if ptr == 0 && n == 0 {
        t0 := 0xFFFFFE00;
        t1 := 0xFFFFFFFF;
      } else if t0 == 0 {
        t0 := (0xFFFFFE00 + bitLen) % TWO_32;
        t1 := (t1 + TWO_32 - 1) % TWO_32;
      } else {
        t0 := t0 - (512 - bitLen);
      }
    }

    /** The padding and the length fit into the block at hand. */
    method FinishOne(ub: Byte, n: nat, flag: bool, th: nat, tl: nat, ghost done: seq<Byte>, ghost rest: seq<Byte>,
                     ghost q: nat, ghost len: nat)
      requires Shape() && n < 8 && 8 * ptr + n <= 446 && |done| == 64 * q && |rest| == ptr
      requires View() == State(Hashed(compress, iv, done, len), t1 * TWO_32 + t0, rest)
      requires (t1 * TWO_32 + t0 + 512) % TWO_64 == Counter(q, len)
      modifies this`h, this`t0, this`t1, this`ptr, buf
      ensures |done + (rest + Tail(old(ptr), ub, n, flag, th, tl))| % 64 == 0
      ensures h == Hashed(compress, iv, done + (rest + Tail(old(ptr), ub, n, flag, th, tl)), len)
    {
      hide Feed, Hashed, Tail, Counter, Low, High;
      TailLength(ptr, ub, n, flag, th, tl);
      var last := LastBlock(ptr, ub, n, flag, th, tl);
      LastFed(compress, View(), done, rest, last, q, len);
      Core(last);
      HashedMore(compress, iv, done, rest + last, len);
      OneMore(q, |done + (rest + last)|);
    }

    /** They do not: a block of padding follows. */
    method FinishTwo(ub: Byte, n: nat, flag: bool, th: nat, tl: nat, ghost done: seq<Byte>, ghost rest: seq<Byte>,
                     ghost q: nat, ghost len: nat)
      requires Shape() && n < 8 && 8 * ptr + n > 446 && |done| == 64 * q && |rest| == ptr && len < 512 * (q + 1)
      requires View() == State(Hashed(compress, iv, done, len), t1 * TWO_32 + t0, rest)
      requires (t1 * TWO_32 + t0 + 512) % TWO_64 == Counter(q, len)
      modifies this`h, this`t0, this`t1, this`ptr, buf
      ensures |done + (rest + Tail(old(ptr), ub, n, flag, th, tl))| % 64 == 0
      ensures h == Hashed(compress, iv, done + (rest + Tail(old(ptr), ub, n, flag, th, tl)), len)
    {
      hide Feed, Hashed, Counter, Digits, Marked, FlagByte;
      var first := [Marked(ub, n)] + ZeroBytes(63 - ptr);
      ghost var second := ZeroBytes(55) + [FlagByte(flag)] + (Digits(th, 4) + Digits(tl, 4));
      TwoBlocks(ptr, ub, n, flag, th, tl);
      hide Tail, ZeroBytes;
      LastFed(compress, View(), done, rest, first, q, len);
      Core(first);
      HashedMore(compress, iv, done, rest + first, len);
      PaddingBlock(flag, th, tl, done + (rest + first), q + 1, len);
      assert done + (rest + first) + second == done + (rest + (first + second));
    }

    /** A block without message bits: its counter is zero. */
    method PaddingBlock(flag: bool, th: nat, tl: nat, ghost p: seq<Byte>, ghost q: nat, ghost len: nat)
      requires Shape() && |p| == 64 * q && len < 512 * q && h == Hashed(compress, iv, p, len) && ptr == 0
      modifies this`h, this`t0, this`t1, this`ptr, buf
      ensures var second := ZeroBytes(55) + [FlagByte(flag)] + (Digits(th, 4) + Digits(tl, 4));
              |p + second| % 64 == 0 && h == Hashed(compress, iv, p + second, len)
    {
      hide Feed, Hashed, Counter, Digits, FlagByte;
      t0 := 0xFFFFFE00;
      t1 := 0xFFFFFFFF;
      var second := SecondBlock(flag, th, tl);
      hide ZeroBytes;
      NoMessageBits(q, len);
      assert buf[..0] == [];
      LastFed(compress, View(), p, [], second, q, len);
      Core(second);
      assert [] + second == second;
      HashedMore(compress, iv, p, second, len);
    }
  }

  lemma TwoBlocks(ptr: nat, ub: Byte, n: nat, flag: bool, th: nat, tl: nat)
    requires ptr < 64 && n < 8 && 8 * ptr + n > 446
    ensures var first := [Marked(ub, n)] + ZeroBytes(63 - ptr);
            var second := ZeroBytes(55) + [FlagByte(flag)] + (Digits(th, 4) + Digits(tl, 4));
            Tail(ptr, ub, n, flag, th, tl) == first + second && |first| == 64 - ptr && |second| == 64
  {
    hide Marked, Digits, FlagByte;
  }

  /** The padded message: its bits are those of the message and the padding. */
  lemma Padded(done: seq<Byte>, rest: seq<Byte>, ub: Byte, n: nat, flag: bool, th: nat, tl: nat, q: nat)
    returns (p: seq<Byte>)
    requires n < 8 && |rest| < 64 && th < TWO_32 && tl < TWO_32
    requires th * TWO_32 + tl == 512 * q + (8 * |rest| + n)
    ensures p == done + (rest + Tail(|rest|, ub, n, flag, th, tl))
    ensures BitsOf(p) == BitsOf(done + rest) + Extra(ub, n) + Padding(th * TWO_32 + tl, flag)
  {
    hide *;
    var tail := Tail(|rest|, ub, n, flag, th, tl);
    p := done + (rest + tail);
    assert p == (done + rest) + tail;
    BitsOfSum(done + rest, tail);
    TailBits(q, |rest|, ub, n, flag, th, tl);
    var a, b, c := BitsOf(done + rest), Extra(ub, n), Padding(th * TWO_32 + tl, flag);
    assert a + (b + c) == a + b + c;
  }

  lemma OneMore(q: nat, n: nat)
    requires n == 64 * q + 64
    ensures n % 64 == 0
  {
  }

  lemma TailLength(ptr: nat, ub: Byte, n: nat, flag: bool, th: nat, tl: nat)
    requires n < 8 && 8 * ptr + n <= 446
    ensures |Tail(ptr, ub, n, flag, th, tl)| == 64 - ptr
  {
  }

  lemma NothingFed<H>(c: Compress<H>, s: State<H>)
    requires |s.buf| < 64
    ensures Feed(c, s, []) == s
  {
    assert s.buf + [] == s.buf;
  }

  lemma FeedFull<H>(c: Compress<H>, s: State<H>, chunk: seq<Byte>)
    requires |s.buf| < 64 && |s.buf| + |chunk| == 64
    ensures Feed(c, s, chunk) == Block(c, s, s.buf + chunk)
  {
    var all := s.buf + chunk;
    assert all[..64] == all && all[64..] == [];
    FeedLittle(c, Block(c, s, all), []);
  }

  /** The two words count as one number. */
  lemma CounterWords(t0: nat, t1: nat)
    requires t0 < TWO_32 && t1 < TWO_32
    ensures var a := (t0 + 512) % TWO_32;
            var b := if a < 512 then (t1 + 1) % TWO_32 else t1;
            && b * TWO_32 + a == (t1 * TWO_32 + t0 + 512) % TWO_64
            && Low(b * TWO_32 + a) == a && High(b * TWO_32 + a) == b
  {
    var a := (t0 + 512) % TWO_32;
    var b := if a < 512 then (t1 + 1) % TWO_32 else t1;
    ModUnique(TWO_32 * b + a, TWO_32, b, a);
  }

  /** What closing finds: the full blocks chained, the rest in the buffer. */
  lemma Started<H>(c: Compress<H>, iv: H, done: seq<Byte>, rest: seq<Byte>, s: State<H>, q: nat)
    requires s == Feed(c, State(iv, 0, []), done + rest) && 512 * q < TWO_64
    requires |done| == 64 * q && |rest| < 64
    ensures |done| % 64 == 0 && s == State(Chained(c, iv, done), 512 * q, rest)
  {
    hide Feed, Chained;
    ModUnique(|done|, 64, q, 0);
    FeedChains(c, iv, done, rest);
    ModUnique(512 * q, TWO_64, 0, 512 * q);
  }

  lemma Whole(n: nat) returns (q: nat)
    ensures n - n % 64 == 64 * q
  {
    q := n / 64;
  }

  /** The length words: adding the last bits to the low word does not carry. */
  lemma NoCarry(t0: nat, t1: nat, q: nat, bitLen: nat)
    requires t0 < TWO_32 && t1 < TWO_32 && t1 * TWO_32 + t0 == 512 * q && bitLen < 512
    ensures t0 % 512 == 0 && t1 * TWO_32 + (t0 + bitLen) % TWO_32 == 512 * q + bitLen
  {
    assert t0 == 512 * (q - t1 * 0x80_0000);
    ModUnique(t0, 512, q - t1 * 0x80_0000, 0);
  }

  lemma SetBackWords(t0: nat, t1: nat, bitLen: nat)
    requires t0 < TWO_32 && t1 < TWO_32 && t0 % 512 == 0 && bitLen < 512
    ensures var r := SetBack(t1 * TWO_32 + t0, bitLen);
            if bitLen == 0 then r == 0xFFFFFFFF * TWO_32 + 0xFFFFFE00
            else if t0 == 0 then r == (t1 + TWO_32 - 1) % TWO_32 * TWO_32 + (0xFFFFFE00 + bitLen) % TWO_32
            else t0 >= 512 && r == t1 * TWO_32 + (t0 - (512 - bitLen))
  {
    if bitLen != 0 && t0 == 0 {
      if t1 == 0 {
        ModUnique(TWO_32 - 1, TWO_32, 0, TWO_32 - 1);
      } else {
        ModUnique(t1 + TWO_32 - 1, TWO_32, 1, t1 - 1);
      }
    } else if bitLen != 0 {
      var v := t1 * TWO_32 + (t0 - (512 - bitLen));
      ModUnique(v + TWO_64, TWO_64, 1, v);
    }
  }

  /** A completed block sees the counter that section 2.1.3 gives it. */
  lemma LastFed<H>(c: Compress<H>, s: State<H>, done: seq<Byte>, rest: seq<Byte>, data: seq<Byte>, i: nat, len: nat)
    requires s.buf == rest && |rest| < 64 && |rest| + |data| == 64 && |done| == 64 * i
    requires (s.t + 512) % TWO_64 == Counter(i, len)
    ensures |done| / 64 == i
    ensures Feed(c, s, data) ==
            State(c(s.h, rest + data, Low(Counter(i, len)), High(Counter(i, len))), Counter(i, len), [])
  {
    hide Feed, Low, High, Counter;
    FeedFull(c, s, data);
  }

  lemma NoMessageBits(q: nat, len: nat)
    requires len < 512 * q
    ensures Counter(q, len) == 0
  {
  }

  /** The rest of the last block, from the marker on, when the length fits in. */
  method LastBlock(ptr: nat, ub: Byte, n: nat, flag: bool, th: nat, tl: nat) returns (bytes: seq<Byte>)
    requires ptr < 64 && n < 8 && 8 * ptr + n <= 446
    ensures bytes == Tail(ptr, ub, n, flag, th, tl)
  {
    hide Marked, Digits;
    var u: seq<Byte> := ZeroBytes(64);
    u := u[ptr := Marked(ub, n)];
    u := u[..ptr + 1] + ZeroBytes(55 - ptr) + u[56..];
    if flag {
      u := u[55 := u[55] - u[55] % 2 + 1];
    }
    if ptr == 55 {
      EvenMarked(ub, n);
      assert u[ptr..56] == [Flagged(ub, n, flag)];
    } else {
      assert u[ptr..56] == [Marked(ub, n)] + ZeroBytes(54 - ptr) + [FlagByte(flag)];
    }
    LengthPut(u, Digits(th, 4), Digits(tl, 4), ptr);
    TailOneBlock(ptr, ub, n, flag, th, tl);
    u := u[..56] + Digits(th, 4) + u[60..];
    u := u[..60] + Digits(tl, 4);
    bytes := u[ptr..];
  }

  lemma LengthPut(u: seq<Byte>, th: seq<Byte>, tl: seq<Byte>, ptr: nat)
    requires |u| == 64 && |th| == 4 && |tl| == 4 && ptr < 56
    ensures ((u[..56] + th + u[60..])[..60] + tl)[ptr..] == u[ptr..56] + (th + tl)
  {
    assert (u[..56] + th + u[60..])[..60] == u[..56] + th;
  }

  lemma TailOneBlock(ptr: nat, ub: Byte, n: nat, flag: bool, th: nat, tl: nat)
    requires n < 8 && 8 * ptr + n <= 446
    ensures Tail(ptr, ub, n, flag, th, tl) ==
            (if ptr == 55 then [Flagged(ub, n, flag)] else [Marked(ub, n)] + ZeroBytes(54 - ptr) + [FlagByte(flag)])
            + (Digits(th, 4) + Digits(tl, 4))
  {
    hide Digits, Marked, Flagged, ZeroBytes;
  }

  /** The block of padding alone. */
  method SecondBlock(flag: bool, th: nat, tl: nat) returns (u: seq<Byte>)
    ensures u == ZeroBytes(55) + [FlagByte(flag)] + (Digits(th, 4) + Digits(tl, 4))
  {
    hide Digits;
    u := ZeroBytes(64);
    if flag {
      u := u[55 := 1];
    }
    u := u[..56] + Digits(th, 4) + u[60..];
    u := u[..60] + Digits(tl, 4);
  }
}

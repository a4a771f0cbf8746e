/** The hash context of src/keccak.c:1525-1647.

    Bytes are buffered, full blocks absorbed into the 25 words in place, and closing pads, squeezes
    and starts afresh. The six inverted words stay inverted from init to close: what a context holds
    is always read with them put right. Proved against the sponge of KeccakSponge. */
module Keccak {
  import opened Arithmetic
  import opened Bytes
  import opened KeccakSpec
  import opened KeccakMask
  import opened KeccakOrders
  import opened KeccakRound
  import KeccakPermutation
  import opened KeccakSponge

  // ---------- Words and bytes ----------

  /** The eight bytes from m + 8i on, the lowest first. */
  function Dec64(m: seq<Byte>, i: nat): Lane
    requires 8 * i + 8 <= |m|
  {
    BitsOf(m[8 * i..8 * i + 8])
  }

  /** The byte with the given bits. */
  function Pack(b: seq<bool>): (v: nat)
    requires |b| <= 8
    ensures v < Pow2(|b|) && Bits(v, |b|) == b
  {
    if b == [] then 0
    else
      var v := Pack(b[1..]);
      PackNext(b[0], b[1..], v);
      assert b == [b[0]] + b[1..];
      (if b[0] then 1 else 0) + 2 * v
  }

  lemma PackNext(first: bool, rest: seq<bool>, v: nat)
    requires v < Pow2(|rest|) && Bits(v, |rest|) == rest
    ensures var w := (if first then 1 else 0) + 2 * v;
            w < Pow2(|rest| + 1) && Bits(w, |rest| + 1) == [first] + rest
  {
    hide Bits, Pow2;
    Pow2Next(|rest|);
    BitsNext((if first then 1 else 0) + 2 * v, |rest|);
  }

  function Enc64(a: Lane): (b: seq<Byte>)
    ensures |b| == 8
  {
    seq(8, m requires 0 <= m < 8 => Pack(a[8 * m..8 * m + 8]))
  }

  lemma {:induction false} BitsAt(m: seq<Byte>, i: nat)
    requires i < |m|
    ensures BitsOf(m)[8 * i..8 * i + 8] == Bits(m[i], 8)
  {
    var k := |m| - 1;
    if i < k {
      BitsAt(m[..k], i);
      assert BitsOf(m)[8 * i..8 * i + 8] == BitsOf(m[..k])[8 * i..8 * i + 8];
    }
  }

  lemma EncodeBits(a: Lane)
    ensures BitsOf(Enc64(a)) == a
  {
    var b := Enc64(a);
    forall m | 0 <= m < 8
      ensures BitsOf(b)[8 * m..8 * m + 8] == a[8 * m..8 * m + 8]
    {
      BitsAt(b, m);
      hide BitsOf, Bits;
    }
    hide BitsOf, Enc64;
    SameRuns(BitsOf(b), a);
  }

  lemma SameRuns(b: seq<bool>, a: seq<bool>)
    requires |a| == |b| == 64 && forall m | 0 <= m < 8 :: b[8 * m..8 * m + 8] == a[8 * m..8 * m + 8]
    ensures b == a
  {
    forall z | 0 <= z < 64
      ensures b[z] == a[z]
    {
      var m := z / 8;
      assert b[8 * m..8 * m + 8][z % 8] == a[8 * m..8 * m + 8][z % 8];
    }
  }

  // ---------- Absorbing a block ----------

  /** The block xored into the first words of the array. */
  function MixedWords(w: seq<Lane>, block: seq<bool>, words: nat): (r: seq<Lane>)
    requires |w| == 25 && 64 * words <= |block|
    ensures |r| == 25
  {
    seq(25, i requires 0 <= i < 25 => if i < words then Xor(w[i], Word(block, i)) else w[i])
  }

  /** Xoring in commutes with inverting the resting lanes. */
  lemma MixedPlain(w: seq<Lane>, block: seq<bool>, words: nat)
    requires |w| == 25 && |block| == 64 * words && IsOrder(P(0))
    ensures Plain(MixedWords(w, block, words), 0) == Mixed(Plain(w, 0), block)
  {
    forall k | 0 <= k < 25
      ensures Plain(MixedWords(w, block, words), 0)[k] == Mixed(Plain(w, 0), block)[k]
    {
      hide *;
      MixedLane(w, block, words, k);
    }
  }

  lemma PlainAt(w: seq<Lane>, k: nat)
    requires |w| == 25 && IsOrder(P(0)) && k < 25
    ensures Place(k) < 25 && Plain(w, 0)[k] == Inv(w[Place(k)], Resting(k))
  {
    InOrder(k);
    hide P, IsOrder, Inv, Resting, Place;
  }

  lemma MixedLane(w: seq<Lane>, block: seq<bool>, words: nat, k: nat)
    requires |w| == 25 && |block| == 64 * words && IsOrder(P(0)) && k < 25
    ensures Plain(MixedWords(w, block, words), 0)[k] == Mixed(Plain(w, 0), block)[k]
  {
    hide Plain, P, Xor, Inv, IsOrder, Resting, Place, Word;
    PlainAt(w, k);
    PlainAt(MixedWords(w, block, words), k);
    var i := Place(k);
    if i < words {
      InvXor(w[i], Word(block, i), Resting(k));
    }
  }

  lemma InvXor(a: Lane, b: Lane, c: bool)
    ensures Inv(Xor(a, b), c) == Xor(Inv(a, c), b)
  {
    XorInv(a, c, b, false);
  }

  lemma InOrder(k: nat)
    requires k < 25
    ensures |P(0)| == 25 && P(0)[k] == Place(k)
  {
    FirstAt(k, k / 5, k % 5);
    FirstOrder();
    hide P;
  }

  lemma WordBits(m: seq<Byte>, j: nat)
    requires 8 * j + 8 <= |m|
    ensures Dec64(m, j) == Word(BitsOf(m), j)
  {
    hide BitsOf;
    var i := 8 * j;
    ThreeParts(m, i, i + 8);
    MiddleBits(m, m[..i], m[i..i + 8], m[i + 8..], 64 * j, 64 * j + 64);
  }

  lemma ThreeParts<T>(m: seq<T>, i: nat, k: nat)
    requires i <= k <= |m|
    ensures m == m[..i] + m[i..k] + m[k..]
  {
  }

  lemma MiddleBits(m: seq<Byte>, before: seq<Byte>, word: seq<Byte>, after: seq<Byte>, lo: nat, hi: nat)
    requires m == before + word + after && lo == 8 * |before| && hi == lo + 8 * |word|
    ensures BitsOf(m)[lo..hi] == BitsOf(word)
  {
    hide BitsOf;
    BitsOfSum(before + word, after);
    BitsOfSum(before, word);
    Middle(BitsOf(before), BitsOf(word), BitsOf(after));
  }

  lemma Middle<T>(a: seq<T>, b: seq<T>, c: seq<T>)
    ensures (a + b + c)[|a|..|a| + |b|] == b
  {
  }

  method XorWord(w: array<Lane>, i: nat, v: Lane)
    requires i < w.Length
    modifies w
    ensures w[..] == old(w[..])[i := Xor(old(w[i]), v)]
  {
    w[i] := Xor(w[i], v);
  }

  method InputBuf(w: array<Lane>, buf: array<Byte>, lim: nat)
    requires w.Length == 25 && buf.Length >= lim && lim <= 200 && lim % 8 == 0
    modifies w
    ensures w[..] == MixedWords(old(w[..]), BitsOf(buf[..lim]), lim / 8)
  {
    var m := buf[..lim];
    ghost var block := BitsOf(m);
    ghost var w0 := w[..];
    hide *;
    NoWordMixed(w0, block);
    var j := 0;
    while j < lim
      invariant j <= lim && j % 8 == 0
      invariant w[..] == MixedWords(w0, block, j / 8)
    {
      ghost var i := j / 8;
      WordMixed(w0, m, i);
      XorWord(w, j / 8, Dec64(m, j / 8));
      j := j + 8;
    }
  }

  lemma NoWordMixed(w: seq<Lane>, block: seq<bool>)
    requires |w| == 25
    ensures MixedWords(w, block, 0) == w
  {
  }

  lemma WordMixed(w: seq<Lane>, m: seq<Byte>, i: nat)
    requires |w| == 25 && i < 25 && 8 * i + 8 <= |m|
    ensures var r := MixedWords(w, BitsOf(m), i);
            r[i := Xor(r[i], Dec64(m, i))] == MixedWords(w, BitsOf(m), i + 1)
  {
    hide Xor, BitsOf, Word, Dec64;
    WordBits(m, i);
  }

  // ---------- The context ----------

  /** The rates of the four sizes the source defines: 200 - out_size / 4 for 512, 384, 256 and 224 bits. */
  predicate IsLim(lim: nat) {
    lim == 72 || lim == 104 || lim == 136 || lim == 144
  }

  class Context {
    var wide: array<Lane>
    var buf: array<Byte>
    var ptr: nat
    var lim: nat
    /** Every byte fed since the start. */
    ghost var fed: seq<Byte>

    ghost predicate Valid()
      reads this, wide, buf
    {
      Holding() && ptr < lim
    }

    /** The bytes before the last ptr are absorbed, those last are in the buffer, which may be full. */
    ghost predicate Holding()
      reads this, wide, buf
    {
      && wide.Length == 25 && buf.Length == 144 && IsOrder(P(0))
      && IsLim(lim) && ptr <= lim && ptr <= |fed|
      && (8 * (|fed| - ptr)) % (8 * lim) == 0
      && buf[..ptr] == fed[|fed| - ptr..]
      && Plain(wide[..], 0) == Absorbed(8 * lim, BitsOf(fed[..|fed| - ptr]))
    }

    /** A new context for hashes of outSize bits. */
    constructor (outSize: nat)
      requires outSize == 224 || outSize == 256 || outSize == 384 || outSize == 512
      ensures Valid() && fed == [] && lim == 200 - outSize / 4
      ensures fresh(wide) && fresh(buf)
    {
      wide := new Lane[25](_ => Zero());
      buf := new Byte[144](_ => 0);
      new;
      Init(outSize);
    }

    method Init(outSize: nat)
      requires outSize == 224 || outSize == 256 || outSize == 384 || outSize == 512
      requires wide.Length == 25 && buf.Length == 144
      modifies this, wide
      ensures Valid() && fed == [] && lim == 200 - outSize / 4
      ensures wide == old(wide) && buf == old(buf)
    {
      hide IsOrder, P, Plain, Absorbed, IsLim, BitsOf;
      InitWords(wide);
      ptr := 0;
      lim := 200 - outSize / 4;
      fed := [];
      NothingAbsorbed(outSize, lim);
      assert fed[..|fed| - ptr] == [];
      assert buf[..ptr] == fed[|fed| - ptr..];
    }

    /** keccak_core: any amount of data. */
    method Core(data: seq<Byte>)
      requires Valid()
      modifies this, wide, buf
      ensures Valid() && fed == old(fed) + data
      ensures lim == old(lim) && wide == old(wide) && buf == old(buf)
    {
      hide Holding;
      if |data| < lim - ptr {
        Buffer(data);
        return;
      }
      var rest := data;
      while |rest| > 0
        invariant Holding() && ptr < lim && fed + rest == old(fed) + data
        invariant lim == old(lim) && wide == old(wide) && buf == old(buf)
      {
        var clen := lim - ptr;
        if clen > |rest| {
          clen := |rest|;
        }
        Fill(rest[..clen]);
        rest := rest[clen..];
      }
    }

    /** The body of its loop: at most what the buffer has room for. */
    method Fill(chunk: seq<Byte>)
      requires Valid() && |chunk| <= lim - ptr
      modifies this, wide, buf
      ensures Valid() && fed == old(fed) + chunk
      ensures lim == old(lim) && wide == old(wide) && buf == old(buf)
    {
      hide Holding;
      Buffer(chunk);
      if ptr == lim {
        AbsorbBlock();
      }
    }

    method Buffer(chunk: seq<Byte>)
      requires Valid() && |chunk| <= lim - ptr
      modifies this, buf
      ensures Holding() && fed == old(fed) + chunk && ptr == old(ptr) + |chunk|
      ensures lim == old(lim) && wide == old(wide) && buf == old(buf)
    {
      hide IsOrder, P, Plain, Absorbed;
      Memcpy(buf, ptr, chunk);
      Buffered(fed, chunk, ptr, buf[..ptr]);
      ptr := ptr + |chunk|;
      fed := fed + chunk;
    }

    method AbsorbBlock()
      requires Holding() && ptr == lim
      modifies this, wide
      ensures Valid() && ptr == 0 && fed == old(fed)
      ensures lim == old(lim) && wide == old(wide) && buf == old(buf)
    {
      hide IsOrder, P, Plain, Absorbed, KeccakF, BitsOf, Mixed, MixedWords;
      ghost var w := wide[..];
      InputBuf(wide, buf, lim);
      MixedPlain(w, BitsOf(buf[..lim]), lim / 8);
      KeccakPermutation.KeccakF1600(wide);
      ghost var done, block := fed[..|fed| - lim], fed[|fed| - lim..];
      BlockAbsorbed(lim, done, block);
      assert fed == done + block;
      ptr := 0;
      assert fed[..|fed| - ptr] == fed;
    }

    /** keccak_close: the last n bits, the padding, and the digest; the context starts afresh. */
    method Close(ub: Byte, n: nat, d: nat) returns (dst: seq<Byte>)
      requires Valid() && n < 8 && lim == 200 - 2 * d
      modifies this, wide, buf
      ensures |dst| == d && BitsOf(dst) == Sponge(8 * old(lim), BitsOf(old(fed)) + Extra(ub, n), 8 * d)
      ensures Valid() && fed == [] && lim == old(lim) && wide == old(wide) && buf == old(buf)
    {
      hide IsOrder, P, Plain, Absorbed, BitsOf, Eb, Extra, Sponge;
      ghost var m := fed;
      BufferedCount(lim, |fed|, ptr);
      var tmp;
      if ptr == lim - 1 {
        if n == 7 {
          tmp := [Eb(ub, n)] + ZeroBytes(lim - 1) + [0x80];
        } else {
          tmp := [EbTopped(ub, n)];
        }
      } else {
        tmp := [Eb(ub, n)] + ZeroBytes(lim - ptr - 2) + [0x80];
      }
      assert tmp == Tail(lim, |m| % lim, ub, n);
      Core(tmp);
      AllAbsorbed(lim, m, ub, n);
      BufferedCount(lim, |fed|, ptr);
      assert fed[..|fed| - ptr] == fed;
      ghost var a := Absorbed(8 * lim, BitsOf(fed));
      FlipBack(wide, a);
      dst := Output(wide, a, d);
      Squeezed(lim, m, ub, n, d);
      Init(8 * d);
    }
  }

  /** Buffering leaves the bytes already absorbed alone. */
  lemma Buffered(fed: seq<Byte>, chunk: seq<Byte>, ptr: nat, kept: seq<Byte>)
    requires ptr <= |fed| && kept == fed[|fed| - ptr..]
    ensures var fed', ptr' := fed + chunk, ptr + |chunk|;
            && fed'[..|fed'| - ptr'] == fed[..|fed| - ptr]
            && fed'[|fed'| - ptr'..] == kept + chunk
  {
  }

  lemma BlockAbsorbed(lim: nat, done: seq<Byte>, block: seq<Byte>)
    requires lim > 0 && |block| == lim && (8 * |done|) % (8 * lim) == 0
    ensures (8 * |done + block|) % (8 * lim) == 0
    ensures Absorbed(8 * lim, BitsOf(done + block)) == KeccakF(Mixed(Absorbed(8 * lim, BitsOf(done)), BitsOf(block)))
  {
    hide BitsOf, KeccakF, Mixed;
    MultipleMore(8 * lim, 8 * |done|);
    BitsOfSum(done, block);
    var b := BitsOf(done + block);
    assert b[..|b| - 8 * lim] == BitsOf(done) && b[|b| - 8 * lim..] == BitsOf(block);
  }

  lemma NothingAbsorbed(outSize: nat, lim: nat)
    requires outSize == 224 || outSize == 256 || outSize == 384 || outSize == 512
    requires lim == 200 - outSize / 4
    ensures IsLim(lim) && 0 % (8 * lim) == 0 && BitsOf([]) == [] && Absorbed(8 * lim, BitsOf([])) == ZeroState()
  {
  }

  method InitWords(w: array<Lane>)
    requires w.Length == 25
    modifies w
    ensures IsOrder(P(0)) && Plain(w[..], 0) == ZeroState()
  {
    hide IsOrder, P, Plain;
    var i := 0;
    while i < 25
      invariant i <= 25
      invariant forall j | 0 <= j < i :: w[j] == Zero()
    {
      w[i] := Zero();
      i := i + 1;
    }
    w[1] := Ones();
    w[2] := Ones();
    w[8] := Ones();
    w[12] := Ones();
    w[17] := Ones();
    w[20] := Ones();
    InitialPlain(w[..]);
  }

  lemma InitialPlain(w: seq<Lane>)
    requires |w| == 25
    requires forall i | 0 <= i < 25 ::
      w[i] == if i == 1 || i == 2 || i == 8 || i == 12 || i == 17 || i == 20 then Ones() else Zero()
    ensures IsOrder(P(0)) && Plain(w, 0) == ZeroState()
  {
    IsOrderP(0);
    forall k | 0 <= k < 25
      ensures Plain(w, 0)[k] == Zero()
    {
      PlainAt(w, k);
      hide Plain, P, IsOrder;
    }
  }

  // ---------- Closing ----------

  /** As many bytes are buffered as the full blocks leave over. */
  lemma BufferedCount(lim: nat, fed: nat, ptr: nat)
    requires lim > 0 && ptr < lim && ptr <= fed && (8 * (fed - ptr)) % (8 * lim) == 0
    ensures fed % lim == ptr
  {
    var q := 8 * (fed - ptr) / (8 * lim);
    assert 8 * (fed - ptr) == 8 * lim * q;
    assert 8 * lim * q == 8 * (lim * q);
    ModUnique(fed, lim, q, ptr);
  }

  lemma AllAbsorbed(lim: nat, m: seq<Byte>, ub: Byte, n: nat)
    requires lim >= 2 && n < 8
    ensures var r, x := 8 * lim, BitsOf(m) + Extra(ub, n);
            BitsOf(m + Tail(lim, |m| % lim, ub, n)) == x + Pad(r, |x|)
    ensures |m + Tail(lim, |m| % lim, ub, n)| % lim == 0
  {
    hide Tail, BitsOf, Pad;
    var tail := Tail(lim, |m| % lim, ub, n);
    BitsOfSum(m, tail);
    TailBits(lim, |m|, ub, n);
    var x := BitsOf(m) + Extra(ub, n);
    assert BitsOf(m) + (Extra(ub, n) + Pad(8 * lim, |x|)) == x + Pad(8 * lim, |x|);
    PadFills(8 * lim, |x|);
    CancelFactor(8, |m + tail|, lim);
  }

  lemma Squeezed(lim: nat, m: seq<Byte>, ub: Byte, n: nat, d: nat)
    requires lim >= 2 && n < 8 && 8 * d <= 1600
    ensures var fed := m + Tail(lim, |m| % lim, ub, n);
            && |BitsOf(fed)| % (8 * lim) == 0
            && Sponge(8 * lim, BitsOf(m) + Extra(ub, n), 8 * d) == String(Absorbed(8 * lim, BitsOf(fed)))[..8 * d]
  {
    hide *;
    AllAbsorbed(lim, m, ub, n);
    SpongeOfPadded(8 * lim, BitsOf(m) + Extra(ub, n), BitsOf(m + Tail(lim, |m| % lim, ub, n)), 8 * d);
  }

  lemma SpongeOfPadded(r: nat, x: seq<bool>, p: seq<bool>, d: nat)
    requires r > 0 && d <= 1600 && p == x + Pad(r, |x|)
    ensures |p| % r == 0 && Sponge(r, x, d) == String(Absorbed(r, p))[..d]
  {
    hide Pad, Absorbed, String;
    PadFills(r, |x|);
  }

  /** Inverting the six lanes again leaves the plain state in the array. */
  method FlipBack(w: array<Lane>, ghost a: Lanes)
    requires w.Length == 25 && IsOrder(P(0)) && Plain(w[..], 0) == a
    modifies w
    ensures View(w[..], P(0)) == a
  {
    ghost var w0 := w[..];
    hide IsOrder, P, Plain, View;
    w[1] := Not(w[1]);
    w[2] := Not(w[2]);
    w[8] := Not(w[8]);
    w[12] := Not(w[12]);
    w[17] := Not(w[17]);
    w[20] := Not(w[20]);
    FlippedBack(w0, w[..]);
  }

  lemma FlippedBack(w0: seq<Lane>, w: seq<Lane>)
    requires |w0| == 25 && |w| == 25 && IsOrder(P(0))
    requires forall i | 0 <= i < 25 ::
      w[i] == if i == 1 || i == 2 || i == 8 || i == 12 || i == 17 || i == 20 then Not(w0[i]) else w0[i]
    ensures View(w, P(0)) == Plain(w0, 0)
  {
    forall k | 0 <= k < 25
      ensures View(w, P(0))[k] == Plain(w0, 0)[k]
    {
      InOrder(k);
      PlainAt(w0, k);
      hide Plain, P, IsOrder, Not;
    }
  }

  /** Word i of the array is the i-th run of 64 bits of the string. */
  lemma WordIs(w: seq<Lane>, a: Lanes, i: nat)
    requires |w| == 25 && IsOrder(P(0)) && View(w, P(0)) == a && i < 25
    ensures String(a)[64 * i..64 * i + 64] == w[i]
  {
    var x, y := i % 5, i / 5;
    var k := 5 * x + y;
    InOrder(k);
    Split(x, y);
    assert w[i] == View(w, P(0))[k] by {
      hide P, IsOrder;
    }
    hide *;
    forall z | 0 <= z < 64
      ensures String(a)[64 * i..64 * i + 64][z] == w[i][z]
    {
      BitIs(a, i, z);
    }
  }

  lemma BitIs(a: Lanes, i: nat, z: nat)
    requires i < 25 && z < 64
    ensures String(a)[64 * i + z] == a[5 * (i % 5) + i / 5][z]
  {
    var t := 64 * i + z;
    assert t / 64 == i && t % 64 == z && t / 320 == i / 5;
    assert String(a)[t] == At(a, i % 5, i / 5)[z];
  }

  method Output(w: array<Lane>, ghost a: Lanes, d: nat) returns (dst: seq<Byte>)
    requires w.Length == 25 && IsOrder(P(0)) && View(w[..], P(0)) == a && d <= 64
    ensures |dst| == d && BitsOf(dst) == String(a)[..8 * d]
  {
    hide P, IsOrder, View, BitsOf, String;
    var tmp: seq<Byte> := [];
    var j := 0;
    assert BitsOf(tmp) == String(a)[..8 * j];
    while j < d
      invariant j % 8 == 0 && j <= 64 && |tmp| == j
      invariant j >= d || j < 64
      invariant BitsOf(tmp) == String(a)[..8 * j]
    {
      ghost var i := j / 8;
      WordIs(w[..], a, i);
      EncodeBits(w[i]);
      BitsOfSum(tmp, Enc64(w[j / 8]));
      assert String(a)[..8 * j] + String(a)[64 * i..64 * i + 64] == String(a)[..8 * j + 64];
      tmp := tmp + Enc64(w[j / 8]);
      j := j + 8;
    }
    dst := tmp[..d];
    BitsOfSum(tmp[..d], tmp[d..]);
    assert tmp == tmp[..d] + tmp[d..];
  }
}

/** CBigNum's conversions (src/bignum.h:178-357). A BIGNUM is an integer; BN_mpi2bn and BN_bn2mpi read
    and write it as a length of four bytes, then the magnitude with the sign in its highest bit. */
module BigNum {
  import opened Arithmetic
  import opened Bytes
  import opened Sequences

  // ---------- The MPI format ----------

  /** The integer that the bytes after the length denote. */
  function Denoted(body: seq<Byte>): int {
    if body == [] then 0
    else if body[0] >= 128 then 0 - Val([body[0] - 128] + body[1..])
    else Val(body)
  }

  /** BN_mpi2bn: bytes whose stated length is not their length leave the number alone. */
  function Mpi2Bn(mpi: seq<Byte>, bn: int): int {
    if |mpi| >= 4 && Val(mpi[..4]) + 4 == |mpi| then Denoted(mpi[4..]) else bn
  }

  /** The bytes needed for n and a sign bit: the least k with 2n < 256^k. */
  function Length(n: nat): (k: nat) {
    if n == 0 then 0 else if n < 128 then 1 else if n < 256 then 2 else 1 + Length(n / 256)
  }

  function Abs(n: int): nat {
    if n < 0 then -n else n
  }

  function Signed(body: seq<Byte>): seq<Byte>
    requires body != [] && body[0] < 128
  {
    [body[0] + 128] + body[1..]
  }

  /** What BN_bn2mpi writes after the length. */
  function Body(n: int): (body: seq<Byte>)
    ensures |body| == Length(Abs(n))
  {
    var k := Length(Abs(n));
    LengthExact(Abs(n));
    HighBitFree(Abs(n));
    if n < 0 then Signed(Digits(Abs(n), k)) else Digits(n, k)
  }

  function Bn2Mpi(n: int): seq<Byte> {
    Digits(Length(Abs(n)), 4) + Body(n)
  }

  lemma {:induction false} LengthExact(n: nat)
    ensures 2 * n < Pow256(Length(n))
    ensures n > 0 ==> Length(n) > 0 && 2 * n >= Pow256(Length(n) - 1)
  {
    assert Pow256(1) == 256 && Pow256(2) == 256 * Pow256(1);
    if n >= 256 {
      LengthExact(n / 256);
    }
  }

  lemma {:induction false} LengthIs(n: nat, k: nat)
    requires 2 * n < Pow256(k) && (k > 0 ==> 2 * n >= Pow256(k - 1))
    ensures Length(n) == k
  {
    LengthExact(n);
    if Length(n) < k {
      PowGrows(Length(n), k - 1);
    } else if k < Length(n) {
      PowGrows(k, Length(n) - 1);
    }
  }

  lemma HighBitFree(n: nat)
    ensures n > 0 ==> Digits(n, Length(n)) != [] && Digits(n, Length(n))[0] < 128
  {
    LengthExact(n);
    if n > 0 {
      var k := Length(n);
      var s := Digits(n, k);
      DigitsVal(n, k);
      SplitVal(s, 1);
      assert Val(s[..1]) == 256 * Val(s[..0]) + s[0];
      FirstByte(n, s[0], Pow256(k - 1), Val(s[1..]));
    }
  }

  lemma FirstByte(n: nat, b: nat, p: nat, r: nat)
    requires p > 0 && n == b * p + r && 2 * n < 256 * p
    ensures b < 128
  {
    Scale(p, b - 127);
    assert p * (b - 127) == b * p - 127 * p;
  }

  /** Writing and reading gives the number back. */
  lemma DenotedBody(n: int)
    ensures Denoted(Body(n)) == n
  {
    LengthExact(Abs(n));
    HighBitFree(Abs(n));
    DigitsVal(Abs(n), Length(Abs(n)));
    var s := Digits(Abs(n), Length(Abs(n)));
    if n < 0 {
      assert [Signed(s)[0] - 128] + Signed(s)[1..] == s;
    }
  }

  lemma MpiRoundTrip(n: int, bn: int)
    requires Length(Abs(n)) < 0x1_0000_0000
    ensures Mpi2Bn(Bn2Mpi(n), bn) == n
  {
    DenotedBody(n);
    LengthHeader(Length(Abs(n)), Body(n), bn);
  }

  /** Any body with its length in front is read as what it denotes. */
  lemma LengthHeader(k: nat, body: seq<Byte>, bn: int)
    requires k == |body| < 0x1_0000_0000
    ensures Mpi2Bn(Digits(k, 4) + body, bn) == Denoted(body)
  {
    Pow4();
    DigitsVal(k, 4);
    var mpi := Digits(k, 4) + body;
    assert mpi[..4] == Digits(k, 4) && mpi[4..] == body;
    hide Denoted, Val, Digits;
  }

  lemma Pow4()
    ensures Pow256(2) == 0x1_0000 && Pow256(3) == 0x100_0000 && Pow256(4) == 0x1_0000_0000
  {
    assert Pow256(2) == 256 * Pow256(1);
    assert Pow256(3) == 256 * Pow256(2);
  }

  // ---------- Building the bytes from the top ----------

  /** What the emitting loops append for a byte. */
  function Appended(out: seq<Byte>, c: Byte, fNegative: bool): seq<Byte> {
    if out != [] then out + [c]
    else if c == 0 then []
    else if c >= 128 then [if fNegative then 128 else 0, c]
    else [if fNegative then c + 128 else c]
  }

  /** What they have written after some leading bytes. */
  function Emitted(bytes: seq<Byte>, fNegative: bool): seq<Byte> {
    if bytes == [] then []
    else Appended(Emitted(bytes[..|bytes| - 1], fNegative), bytes[|bytes| - 1], fNegative)
  }

  lemma {:induction false} EmittedLength(bytes: seq<Byte>, fNegative: bool)
    ensures |Emitted(bytes, fNegative)| <= |bytes| + 1
  {
    if bytes != [] {
      EmittedLength(bytes[..|bytes| - 1], fNegative);
    }
  }

  /** The bytes written denote the number the leading bytes make up, with its sign. */
  lemma {:induction false} EmittedDenotes(bytes: seq<Byte>, fNegative: bool)
    ensures Denoted(Emitted(bytes, fNegative)) == if fNegative then 0 - Val(bytes) else Val(bytes)
    ensures Emitted(bytes, fNegative) == [] <==> Val(bytes) == 0
    ensures Val(bytes) > 0 ==> (Emitted(bytes, fNegative)[0] >= 128 <==> fNegative)
  {
    if bytes != [] {
      var k := |bytes| - 1;
      EmittedDenotes(bytes[..k], fNegative);
      var out, c := Emitted(bytes[..k], fNegative), bytes[k];
      if out != [] {
        AppendDenotes(out, c);
      } else {
        SmallDenotes(c);
      }
    }
  }

  lemma AppendDenotes(out: seq<Byte>, c: Byte)
    requires out != []
    ensures Denoted(out + [c]) == if out[0] >= 128 then 256 * Denoted(out) - c else 256 * Denoted(out) + c
  {
    var longer := out + [c];
    if out[0] >= 128 {
      var s := [out[0] - 128] + out[1..];
      assert [longer[0] - 128] + longer[1..] == s + [c];
      assert (s + [c])[..|s|] == s;
    } else {
      assert longer[..|out|] == out;
    }
  }

  lemma SmallDenotes(c: Byte)
    ensures c < 128 ==> Denoted([c]) == c && Denoted([c + 128]) == 0 - c
    ensures c >= 128 ==> Denoted([0, c]) == c && Denoted([128, c]) == 0 - c
  {
    assert Val([]) == 0;
    assert [c][..0] == [];
    assert Val([c]) == c;
    if c >= 128 {
      assert [0, c][..1] == [0];
      assert [0][..0] == [];
      assert Val([0]) == 0;
      assert Val([0, c]) == c;
      assert [0] + [128, c][1..] == [0, c];
    } else {
      assert [c] + [c + 128][1..] == [c];
    }
  }

  // ---------- The conversions ----------

  const TWO_56: nat := 0x100_0000_0000_0000

  lemma Pow8()
    ensures Pow256(7) == TWO_56 && Pow256(8) == TWO_64
  {
    Pow4();
    assert Pow256(5) == 256 * Pow256(4);
    assert Pow256(6) == 256 * Pow256(5);
    assert Pow256(7) == 256 * Pow256(6);
  }

  lemma EmittedNothing(bytes: seq<Byte>, fNegative: bool)
    ensures Emitted(bytes[..0], fNegative) == [] && Remaining(bytes, 0) == Val(bytes)
  {
    assert bytes[0..] == bytes;
  }

  lemma EmittedNext(bytes: seq<Byte>, i: nat, fNegative: bool)
    requires i < |bytes|
    ensures Emitted(bytes[..i + 1], fNegative) == Appended(Emitted(bytes[..i], fNegative), bytes[i], fNegative)
  {
    hide Appended;
    assert bytes[..i + 1][..i] == bytes[..i];
  }

  /** The word when its first i bytes have been shifted out. */
  function Remaining(bytes: seq<Byte>, i: nat): nat
    requires i <= |bytes|
  {
    Val(bytes[i..]) * Pow256(i)
  }

  /** After i shifts the highest byte of n is byte i of the number; what is left are the bytes after it. */
  lemma ShiftByte(bytes: seq<Byte>, i: nat, n: nat)
    requires |bytes| == 8 && i < 8 && n == Remaining(bytes, i)
    ensures n / TWO_56 == bytes[i] && n * 256 % TWO_64 == Remaining(bytes, i + 1)
  {
    Pow8();
    var c, rest, p, q := bytes[i], Val(bytes[i + 1..]), Pow256(i), Pow256(7 - i);
    ConcatVal([c], bytes[i + 1..]);
    OneByte(c);
    assert bytes[i..] == [c] + bytes[i + 1..];
    PowSum(7 - i, i);
    Shifted(c, rest, q, p, n);
  }

  lemma OneByte(c: Byte)
    ensures Val([c]) == c
  {
    assert [c][..0] == [];
    assert Val([c]) == 256 * Val([]) + c;
  }

  lemma Shifted(c: nat, rest: nat, q: nat, p: nat, n: nat)
    requires p > 0 && rest < q && q * p == TWO_56 && n == (c * q + rest) * p
    requires c < 256
    ensures n / TWO_56 == c && n * 256 % TWO_64 == rest * (256 * p)
  {
    var r := rest * p;
    assert n == c * TWO_56 + r by {
      Distribute(c, q, rest, p);
    }
    assert r < TWO_56 by {
      Scale(p, q - rest);
      assert p * (q - rest) == q * p - rest * p;
    }
    assert n / TWO_56 == c;
    assert n * 256 == c * TWO_64 + 256 * r;
    assert 256 * r == rest * (256 * p) by {
      Times256(rest, p, 0);
    }
  }

  lemma Distribute(c: nat, q: nat, rest: nat, p: nat)
    ensures (c * q + rest) * p == c * (q * p) + rest * p
  {
    Associate(c, q, p);
    assert (c * q + rest) * p == (c * q) * p + rest * p;
  }

  class CBigNum {
    var bn: int

    constructor ()
      ensures bn == 0
    {
      bn := 0;
    }

    /** The loop that setint64 and setuint64 share: the bytes of n from the top, leading zeros dropped. */
    method EmitWord(word: nat, fNegative: bool) returns (body: seq<Byte>)
      requires word < TWO_64
      ensures body == Emitted(Digits(word, 8), fNegative) && |body| <= 9
    {
      ghost var bytes := Digits(word, 8);
      hide Digits, Val, Emitted, Remaining, Appended;
      Pow8();
      DigitsVal(word, 8);
      EmittedNothing(bytes, fNegative);
      var n := word;
      var fLeadingZeroes := true;
      body := [];
      var i := 0;
      while i < 8
        invariant i <= 8 && n == Remaining(bytes, i)
        invariant body == Emitted(bytes[..i], fNegative)
        invariant fLeadingZeroes <==> body == []
      {
        ShiftByte(bytes, i, n);
        EmittedNext(bytes, i, fNegative);
        var c := n / TWO_56;
        n := n * 256 % TWO_64;
        body, fLeadingZeroes := EmitByte(body, c, fLeadingZeroes, fNegative);
        i := i + 1;
      }
      assert bytes[..8] == bytes;
      EmittedLength(bytes, fNegative);
    }

    /** The body of the loop: nothing for a leading zero, and a byte more for a sign that does not fit. */
    method EmitByte(out: seq<Byte>, c: Byte, fLeadingZeroes: bool, fNegative: bool)
      returns (body: seq<Byte>, fStill: bool)
      requires fLeadingZeroes <==> out == []
      ensures body == Appended(out, c, fNegative) && (fStill <==> body == [])
    {
      body, fStill := out, fLeadingZeroes;
      var last := c;
      if fLeadingZeroes {
        if c == 0 {
          return;
        }
        if c >= 128 {
          body := body + [if fNegative then 128 else 0];
        } else if fNegative {
          last := c + 128;
        }
        fStill := false;
      }
      body := body + [last];
    }

    method Read(body: seq<Byte>)
      requires |body| < 0x1_0000_0000
      modifies this
      ensures bn == Denoted(body)
    {
      LengthHeader(|body|, body, bn);
      bn := Mpi2Bn(Digits(|body|, 4) + body, bn);
    }

    /** Every 64-bit integer, the least one included. */
    method SetInt64(sn: int)
      requires -0x8000_0000_0000_0000 <= sn < 0x8000_0000_0000_0000
      modifies this
      ensures bn == sn
    {
      var n: nat;
      var fNegative: bool;
      if sn < 0 {
        n := -(sn + 1);
        n := n + 1;
        fNegative := true;
      } else {
        n := sn;
        fNegative := false;
      }
      var body := EmitWord(n, fNegative);
      Pow8();
      DigitsVal(n, 8);
      EmittedDenotes(Digits(n, 8), fNegative);
      Read(body);
    }

    method SetUint64(n: nat)
      requires n < TWO_64
      modifies this
      ensures bn == n
    {
      var body := EmitWord(n, false);
      Pow8();
      DigitsVal(n, 8);
      EmittedDenotes(Digits(n, 8), false);
      Read(body);
    }

    /** memory holds the 256-bit number, its lowest byte first. */
    method SetUint256(memory: seq<Byte>)
      requires |memory| == 32
      modifies this
      ensures bn == Val(Reverse(memory))
    {
      ghost var bytes := Reverse(memory);
      hide Emitted, Val;
      EmittedNothing(bytes, false);
      var body := [];
      var fLeadingZeroes := true;
      var psrc := 32;
      while psrc != 0
        invariant 0 <= psrc <= 32
        invariant body == Emitted(bytes[..32 - psrc], false) && |body| <= 33 - psrc
        invariant fLeadingZeroes <==> body == []
      {
        EmittedNext(bytes, 32 - psrc, false);
        psrc := psrc - 1;
        var c := memory[psrc];
        if fLeadingZeroes {
          if c == 0 {
            continue;
          }
          if c >= 128 {
            body := body + [0];
          }
          fLeadingZeroes := false;
        }
        body := body + [c];
      }
      assert bytes[..32] == bytes;
      EmittedDenotes(bytes, false);
      Read(body);
    }

    /** The bytes with the sign bit cleared. */
    method Magnitude() returns (vch: seq<Byte>)
      ensures |vch| >= 4 && Val(vch[4..]) == Abs(bn)
    {
      hide Val, Digits, Length, Bn2Mpi;
      vch := Bn2Mpi(bn);
      ghost var k := Length(Abs(bn));
      MagnitudeBytes(bn);
      if |vch| > 4 {
        vch := vch[4 := vch[4] % 128];
      }
      assert vch[4..] == Digits(Abs(bn), k);
      LengthExact(Abs(bn));
      DigitsVal(Abs(bn), k);
    }

    /** The low bytes of the magnitude. */
    method LowBytes(size: nat) returns (n: nat)
      ensures n == Abs(bn) % Pow256(size)
    {
      hide *;
      var vch := Magnitude();
      ghost var m := vch[4..];
      NoLowByte(m);
      n := 0;
      var weight: nat := 1;
      var i, j := 0, |vch| - 1;
      while i < size && j >= 4
        invariant i <= size && i <= |m| && j == |m| + 3 - i && weight == Pow256(i)
        invariant n == Val(m[|m| - i..])
        decreases size - i
      {
        NextLowByte(m, |m| - i);
        var c: nat := vch[j];
        n := n + c * weight;
        weight := weight * 256;
        i := i + 1;
        j := j - 1;
      }
      LowValue(m, i, size);
    }

    method GetUint64() returns (n: nat)
      ensures n == Abs(bn) % TWO_64
    {
      Pow8();
      n := LowBytes(8);
    }

    method GetUint256() returns (n: nat)
      ensures n == Abs(bn) % Pow256(32)
    {
      n := LowBytes(32);
    }

    /** vch is the number with its sign, the lowest byte first. */
    method SetVch(vch: seq<Byte>)
      requires |vch| < 0x1_0000_0000
      modifies this
      ensures bn == Denoted(Reverse(vch))
    {
      Read(Reverse(vch));
    }

    method GetVch() returns (vch: seq<Byte>)
      ensures vch == Reverse(Body(bn))
    {
      var mpi := Bn2Mpi(bn);
      if |mpi| <= 4 {
        return [];
      }
      return Reverse(mpi[4..]);
    }

    method SetCompact(nCompact: nat)
      requires nCompact < 0x1_0000_0000
      modifies this
      ensures bn == Expand(nCompact)
    {
      var nSize := nCompact / 0x100_0000;
      var vch: seq<Byte> := ZeroBytes(4 + nSize);
      vch := vch[3 := nSize];
      if nSize >= 1 {
        vch := vch[4 := nCompact / 0x1_0000 % 256];
      }
      if nSize >= 2 {
        vch := vch[5 := nCompact / 256 % 256];
      }
      if nSize >= 3 {
        vch := vch[6 := nCompact % 256];
      }
      SmallHeader(nSize);
      ghost var top := Top(nCompact);
      assert vch[..4] == [0, 0, 0, nSize];
      assert vch[4..] == if nSize <= 3 then top[..nSize] else top + ZeroBytes(nSize - 3);
      hide Val, Denoted;
      bn := Mpi2Bn(vch, bn);
    }

    /** The shift is one of 32 bits. */
    method GetCompact() returns (nCompact: nat)
      ensures nCompact == Compact(bn)
    {
      var vch := Bn2Mpi(bn);
      var nSize := |vch| - 4;
      hide Body;
      assert vch[4..] == Body(bn);
      nCompact := nSize * 0x100_0000 % 0x1_0000_0000;
      ShiftWraps(nSize);
      if nSize >= 1 {
        nCompact := nCompact + 0x1_0000 * vch[4] as nat;
      }
      if nSize >= 2 {
        nCompact := nCompact + 256 * vch[5] as nat;
      }
      if nSize >= 3 {
        nCompact := nCompact + vch[6];
      }
    }
  }

  lemma ShiftWraps(k: nat)
    ensures k * 0x100_0000 % 0x1_0000_0000 == k % 256 * 0x100_0000
  {
    ModUnique(k * 0x100_0000, 0x1_0000_0000, k / 256, k % 256 * 0x100_0000);
  }

  lemma SmallHeader(k: Byte)
    ensures Val([0, 0, 0, k]) == k
  {
    OneByte(k);
    LeadingZero([k]);
    LeadingZero([0] + [k]);
    LeadingZero([0] + ([0] + [k]));
    assert [0, 0, 0, k] == [0] + ([0] + ([0] + [k]));
  }

  lemma MagnitudeBytes(n: int)
    ensures var mpi, k := Bn2Mpi(n), Length(Abs(n));
            && |mpi| == 4 + k
            && (if k > 0 then [mpi[4] % 128] + mpi[5..] else []) == Digits(Abs(n), k)
  {
    hide Digits, Length;
    BodyDigits(n);
    var mpi, k := Bn2Mpi(n), Length(Abs(n));
    hide Body;
    assert mpi[4..] == Body(n);
    if k > 0 {
      assert mpi[5..] == Body(n)[1..];
    }
  }

  lemma BodyDigits(n: int)
    ensures var k := Length(Abs(n));
            (if k > 0 then [Body(n)[0] % 128] + Body(n)[1..] else []) == Digits(Abs(n), k)
  {
    hide Digits, Length;
    HighBitFree(Abs(n));
    LengthExact(Abs(n));
    var s := Digits(Abs(n), Length(Abs(n)));
    if n == 0 {
      NoLength();
      assert s == [];
    } else if n > 0 {
      assert Body(n) == s;
      assert s == [s[0] % 128] + s[1..];
    } else {
      assert Body(n) == [s[0] + 128] + s[1..];
      assert s == [(s[0] + 128) % 128] + Body(n)[1..];
    }
  }

  lemma NoLength()
    ensures Length(0) == 0
  {
  }

  lemma NextLowByte(m: seq<Byte>, i: nat)
    requires 0 < i <= |m|
    ensures Val(m[i - 1..]) == Val(m[i..]) + m[i - 1] * Pow256(|m| - i)
    ensures Pow256(|m| - i + 1) == Pow256(|m| - i) * 256
  {
    assert m[i - 1..] == [m[i - 1]] + m[i..];
    ConcatVal([m[i - 1]], m[i..]);
    OneByte(m[i - 1]);
  }

  lemma NoLowByte(m: seq<Byte>)
    ensures Val(m[|m|..]) == 0 && Pow256(0) == 1
  {
    assert m[|m|..] == [];
  }

  lemma LowValue(m: seq<Byte>, i: nat, size: nat)
    requires i <= |m| && (i == size || i == |m|) && i <= size
    ensures Val(m[|m| - i..]) == Val(m) % Pow256(size)
  {
    hide Val, Pow256;
    SplitVal(m, |m| - i);
    if i < size {
      assert m[|m| - i..] == m;
      PowGrows(|m|, size);
      BelowPower(Val(m), Pow256(size));
    }
  }

  /** Storing and reading back. */
  method Uint64RoundTrip(n: nat) returns (r: nat)
    requires n < TWO_64
    ensures r == n
  {
    var big := new CBigNum();
    big.SetUint64(n);
    SmallLength(n, 8);
    Pow8();
    r := big.GetUint64();
  }

  method Uint256RoundTrip(memory: seq<Byte>) returns (r: nat)
    requires |memory| == 32
    ensures r == Val(Reverse(memory))
  {
    var big := new CBigNum();
    big.SetUint256(memory);
    SmallLength(Val(Reverse(memory)), 32);
    r := big.GetUint256();
    BelowPower(Val(Reverse(memory)), Pow256(32));
  }

  lemma PowMonotone(j: nat, k: nat)
    ensures j <= k ==> Pow256(j) <= Pow256(k)
  {
    if j <= k {
      PowGrows(j, k);
    }
  }

  lemma SmallLength(n: nat, k: nat)
    requires n < Pow256(k)
    ensures Length(n) <= k + 1
  {
    LengthExact(n);
    PowMonotone(k + 1, if n == 0 then 0 else Length(n) - 1);
  }

  lemma VchRoundTrip(n: int)
    ensures Denoted(Reverse(Reverse(Body(n)))) == n
  {
    ReverseTwice(Body(n));
    DenotedBody(n);
  }

  // ---------- The compact form (src/bignum.h:334-357) ----------

  /** SetCompact: a size, and the first three bytes of an MPI body of that size. */
  function Expand(nCompact: nat): int
    requires nCompact < 0x1_0000_0000
  {
    var nSize := nCompact / 0x100_0000;
    Denoted(if nSize <= 3 then Top(nCompact)[..nSize] else Top(nCompact) + ZeroBytes(nSize - 3))
  }

  function Top(nCompact: nat): (s: seq<Byte>)
    ensures |s| == 3
  {
    [nCompact / 0x1_0000 % 256, nCompact / 256 % 256, nCompact % 256]
  }

  /** GetCompact: the size of the body, reduced to a byte, and its first three bytes. */
  function Compact(n: int): (c: nat)
    ensures c < 0x1_0000_0000
  {
    var body := Body(n);
    var k := |body|;
    k % 256 * 0x100_0000
    + (if k >= 1 then 0x1_0000 * body[0] as nat else 0) + (if k >= 2 then 256 * body[1] as nat else 0)
    + (if k >= 3 then body[2] else 0)
  }

  /** What the compact form keeps of n: all of it below three bytes, else the first three bytes. */
  function Kept(n: nat): nat {
    var k := Length(n);
    if k <= 3 then n else n - Rest(n, Pow256(k - 3))
  }

  function Rest(n: nat, p: nat): (r: nat)
    requires p > 0
    ensures r <= n && n - r == n / p * p
  {
    assert n == p * (n / p) + n % p && p * (n / p) == n / p * p;
    Scale(p, n / p);
    n % p
  }

  lemma {:induction false} ZerosVal(s: seq<Byte>, n: nat)
    ensures Val(s + ZeroBytes(n)) == Val(s) * Pow256(n)
  {
    ConcatVal(s, ZeroBytes(n));
    OnlyZeros(n);
  }

  lemma {:induction false} OnlyZeros(n: nat)
    ensures Val(ZeroBytes(n)) == 0
  {
    if n != 0 {
      OnlyZeros(n - 1);
      assert ZeroBytes(n)[..n - 1] == ZeroBytes(n - 1);
    }
  }

  lemma ExpandNatural(n: nat)
    requires Length(n) < 256
    ensures Expand(Compact(n)) == Kept(n)
  {
    var body, k := Body(n), Length(n);
    hide Compact, Expand, Body, Denoted;
    ExpandIs(n);
    if k <= 3 {
      DenotedBody(n);
    } else {
      TopDenotes(n);
    }
  }

  lemma ExpandIs(n: nat)
    requires Length(n) < 256
    ensures var body, k := Body(n), Length(n);
            Expand(Compact(n)) == Denoted(if k <= 3 then body else body[..3] + ZeroBytes(k - 3))
  {
    hide Body, Compact, Denoted, Top, Length;
    CompactParts(n);
    var body, k, top := Body(n), Length(n), Top(Compact(n));
    assert body[..k] == body;
    assert top[..3] == top;
  }

  lemma TopDenotes(n: nat)
    requires Length(n) > 3
    ensures var body, k := Body(n), Length(n);
            Denoted(body[..3] + ZeroBytes(k - 3)) == Kept(n)
  {
    var body, k := Body(n), Length(n);
    HighBitFree(n);
    LengthExact(n);
    DigitsVal(n, k);
    SplitVal(body, 3);
    ZerosVal(body[..3], k - 3);
    hide Val, Body;
    assert (body[..3] + ZeroBytes(k - 3))[0] == body[0];
  }

  /** The size and the bytes can be read back from the number. */
  lemma CompactParts(n: nat)
    ensures Compact(n) / 0x100_0000 == Length(n) % 256
    ensures var m := if Length(n) <= 3 then Length(n) else 3; Top(Compact(n))[..m] == Body(n)[..m]
  {
    hide Body, Length;
    var c, body, k := Compact(n), Body(n), Length(n);
    var a, b, d: Byte := if k >= 1 then body[0] else 0, if k >= 2 then body[1] else 0, if k >= 3 then body[2] else 0;
    assert c == k % 256 * 0x100_0000 + 0x1_0000 * a as nat + 256 * b as nat + d;
    hide Compact;
    FourParts(k % 256, a, b, d);
    assert Top(c) == [a, b, d];
    hide Top;
  }

  lemma FourParts(k: nat, a: Byte, b: Byte, d: Byte)
    ensures var c := k * 0x100_0000 + 0x1_0000 * a as nat + 256 * b as nat + d;
            c / 0x100_0000 == k && c / 0x1_0000 % 256 == a && c / 256 % 256 == b && c % 256 == d
  {
    var e, f, g: nat := a, b, d;
    var c := k * 0x100_0000 + 0x1_0000 * e + 256 * f + g;
    ModUnique(c, 0x100_0000, k, 0x1_0000 * e + 256 * f + g);
    ModUnique(c, 0x1_0000, 256 * k + e, 256 * f + g);
    ModUnique(256 * k + e, 256, k, e);
    ModUnique(c, 256, 0x1_0000 * k + 256 * e + f, g);
    ModUnique(0x1_0000 * k + 256 * e + f, 256, 256 * k + e, f);
  }

  /** The error is never negative and at most 2^-15 of what is kept; below three bytes there is none. */
  lemma KeptClose(n: nat)
    ensures Kept(n) <= n && (n - Kept(n)) * 0x8000 <= Kept(n)
    ensures Length(n) <= 3 ==> Kept(n) == n
  {
    var k := Length(n);
    if k > 3 {
      var p := Pow256(k - 3);
      LengthExact(n);
      TwoMore(k);
      Close(n, p);
    }
  }

  lemma TwoMore(k: nat)
    requires k > 3
    ensures Pow256(k - 1) == 0x1_0000 * Pow256(k - 3) && Pow256(k) == 0x100_0000 * Pow256(k - 3)
  {
  }

  lemma Close(n: nat, p: nat)
    requires p > 0 && 2 * n >= 0x1_0000 * p
    ensures n / p * p <= n && (n - n / p * p) * 0x8000 <= n / p * p
    ensures 2 * (n / p * p) >= 0x1_0000 * p
  {
    var q, r := n / p, n % p;
    assert n == p * q + r && p * q == q * p;
    Scale(p, q - 0x7fff);
    assert p * (q - 0x7fff) == q * p - 0x7fff * p;
  }

  /** What is kept has the same size, and keeping again changes nothing: it compacts to the same number. */
  lemma KeptAgain(n: nat)
    ensures Length(Kept(n)) == Length(n) && Kept(Kept(n)) == Kept(n)
  {
    var k, r := Length(n), Kept(n);
    if k > 3 {
      var p := Pow256(k - 3);
      LengthExact(n);
      TwoMore(k);
      Close(n, p);
      LengthIs(r, k);
      Multiple(n / p, p);
    }
  }

  lemma Multiple(q: nat, p: nat)
    requires p > 0
    ensures q * p / p == q
  {
    assert p * q == q * p;
    ModUnique(q * p, p, q, 0);
  }

  lemma RecompactsSame(n: nat)
    requires Length(n) < 256
    ensures Expand(Compact(n)) >= 0 && Compact(Expand(Compact(n))) == Compact(n)
  {
    hide *;
    ExpandNatural(n);
    if Length(n) > 3 {
      SameTop(n);
      CompactSame(n, Kept(n));
    } else {
      KeptClose(n);
    }
  }

  lemma CompactSame(m: nat, n: nat)
    requires Length(m) == Length(n) > 3 && Body(m)[..3] == Body(n)[..3]
    ensures Compact(m) == Compact(n)
  {
    hide Length;
    var a, b := Body(m), Body(n);
    assert a[0] == a[..3][0] && a[1] == a[..3][1] && a[2] == a[..3][2];
    assert b[0] == b[..3][0] && b[1] == b[..3][1] && b[2] == b[..3][2];
    hide Body;
  }

  /** The first three bytes of what is kept are those of n. */
  lemma SameTop(n: nat)
    requires Length(n) > 3
    ensures Length(Kept(n)) == Length(n) && Body(Kept(n))[..3] == Body(n)[..3]
  {
    var k, r := Length(n), Kept(n);
    KeptAgain(n);
    LengthExact(n);
    LengthExact(r);
    DigitsVal(n, k);
    DigitsVal(r, k);
    SplitVal(Body(n), 3);
    SplitVal(Body(r), 3);
    Multiple(n / Pow256(k - 3), Pow256(k - 3));
    ValDigits(Body(n)[..3]);
    ValDigits(Body(r)[..3]);
  }

  /** A larger number keeps at least as much. */
  lemma KeptMonotone(m: nat, n: nat)
    requires m <= n
    ensures Kept(m) <= Kept(n)
  {
    var j, k := Length(m), Length(n);
    LengthExact(m);
    LengthExact(n);
    KeptClose(m);
    if k > 3 {
      TwoMore(k);
      var p := Pow256(k - 3);
      Close(n, p);
      if j < k {
        PowGrows(j, k - 1);
      } else {
        if j > k {
          PowGrows(k, j - 1);
        }
        QuotientMonotone(m, n, p);
      }
    }
  }

  // ---------- Numbers of either sign ----------

  lemma DenotedSigned(body: seq<Byte>)
    requires body != [] && body[0] < 128
    ensures Denoted(Signed(body)) == 0 - Denoted(body)
  {
    assert [Signed(body)[0] - 128] + Signed(body)[1..] == body;
  }

  /** Setting the sign bit of a compact form negates the number. */
  lemma ExpandSigned(nCompact: nat)
    requires nCompact < 0x1_0000_0000 && Top(nCompact)[0] < 128
    ensures nCompact + 0x80_0000 < 0x1_0000_0000
    ensures Expand(nCompact + 0x80_0000) == 0 - Expand(nCompact)
  {
    var k, top := nCompact / 0x100_0000, Top(nCompact);
    SignedParts(nCompact);
    hide Top, Denoted, ZeroBytes;
    if k == 0 {
      DenotedNothing();
      assert top[..0] == Signed(top)[..0] == [];
    } else if k <= 3 {
      assert Signed(top)[..k] == Signed(top[..k]);
      DenotedSigned(top[..k]);
    } else {
      var zeros := ZeroBytes(k - 3);
      assert Signed(top) + zeros == Signed(top + zeros);
      DenotedSigned(top + zeros);
    }
  }

  lemma DenotedNothing()
    ensures Denoted([]) == 0
  {
  }

  lemma SignedParts(nCompact: nat)
    requires nCompact < 0x1_0000_0000 && Top(nCompact)[0] < 128
    ensures nCompact + 0x80_0000 < 0x1_0000_0000
    ensures (nCompact + 0x80_0000) / 0x100_0000 == nCompact / 0x100_0000
    ensures Top(nCompact + 0x80_0000) == Signed(Top(nCompact))
  {
    var k, top := nCompact / 0x100_0000, Top(nCompact);
    PartsOf(nCompact);
    hide Top;
    FourParts(k, top[0] + 128, top[1], top[2]);
    TopIs(nCompact + 0x80_0000, top[0] + 128, top[1], top[2]);
  }

  lemma PartsOf(c: nat)
    ensures var top := Top(c);
            c == c / 0x100_0000 * 0x100_0000 + 0x1_0000 * top[0] as nat + 256 * top[1] as nat + top[2]
  {
    var a: nat, b: nat := c / 0x1_0000 % 256, c / 256 % 256;
    assert c / 256 / 256 == c / 0x1_0000 && c / 0x1_0000 / 256 == c / 0x100_0000;
    assert c / 0x1_0000 == 256 * (c / 0x100_0000) + a && c / 256 == 256 * (c / 0x1_0000) + b;
  }

  lemma TopIs(c: nat, a: Byte, b: Byte, d: Byte)
    requires c / 0x1_0000 % 256 == a && c / 256 % 256 == b && c % 256 == d
    ensures Top(c) == [a, b, d]
  {
  }

  lemma CompactSigned(n: nat)
    requires n > 0
    ensures Length(n) > 0 && Body(n)[0] < 128 && Body(0 - n) == Signed(Body(n))
    ensures Compact(0 - n) == Compact(n) + 0x80_0000
  {
    LengthExact(n);
    HighBitFree(n);
    hide Digits, Length;
    assert Body(0 - n) == Signed(Body(n));
    hide Body;
  }

  lemma FirstOfTop(n: nat)
    requires Length(n) > 0
    ensures Body(n) != [] && Top(Compact(n))[0] == Body(n)[0]
  {
    hide Compact, Body, Length, Top;
    CompactParts(n);
    assert Top(Compact(n))[0] == Top(Compact(n))[..if Length(n) <= 3 then Length(n) else 3][0];
  }

  /** The compact form carries the sign: a number and its negation, whatever their size, expand to a
      number and its negation. */
  lemma CompactNegates(n: nat)
    ensures Expand(Compact(0 - n)) == 0 - Expand(Compact(n))
  {
    hide *;
    if n > 0 {
      CompactSigned(n);
      FirstOfTop(n);
      ExpandSigned(Compact(n));
    } else {
      NoLength();
      ExpandNatural(0);
      KeptClose(0);
    }
  }

  /** Compacting and expanding keeps the sign and of the magnitude its three top bytes. */
  lemma ExpandCompact(n: int)
    requires Length(Abs(n)) < 256
    ensures Expand(Compact(n)) == if n < 0 then 0 - Kept(-n) else Kept(n)
  {
    hide Expand, Compact, Length, Kept;
    ExpandNatural(Abs(n));
    if n < 0 {
      CompactNegates(-n);
    }
  }

  /** r is n with the same sign and a magnitude no larger, by at most 2^-15 of that of r. */
  predicate Near(n: int, r: int) {
    if n < 0 then n <= r <= 0 && (r - n) * 0x8000 <= -r else 0 <= r <= n && (n - r) * 0x8000 <= r
  }

  /** What a number loses on its way through the compact form: at most 2^-15 of what is left, nothing
      below three bytes, and nothing more on going through it again. */
  lemma CompactKeeps(n: int)
    requires Length(Abs(n)) < 256
    ensures var r := Expand(Compact(n));
            && Near(n, r)
            && (Length(Abs(n)) <= 3 ==> r == n)
            && Compact(r) == Compact(n)
  {
    hide Expand, Compact, Length, Kept;
    ExpandCompact(n);
    KeptClose(Abs(n));
    RecompactsSame(Abs(n));
    if n < 0 {
      ExpandNatural(-n);
      CompactSigned(-n);
      CompactSigned(Kept(-n));
    }
  }

  /** That is so exactly when the MPI length fits in the byte the compact form has for it. */
  lemma CompactKeepsWhen(n: int)
    ensures Length(Abs(n)) < 256 <==> Near(n, Expand(Compact(n)))
  {
    hide Expand, Compact, Length, Pow256;
    if Length(Abs(n)) < 256 {
      CompactKeeps(n);
    } else {
      ExpandLong(Abs(n));
      if n < 0 {
        CompactNegates(-n);
      }
    }
  }

  lemma ExpandLong(n: nat)
    requires Length(n) >= 256
    ensures !Near(n, Expand(Compact(n))) && n > 0
  {
    hide Expand, Compact, Length, Pow256;
    CompactParts(n);
    var p := Pow256(Length(n) % 256);
    ExpandBelow(Compact(n), Length(n) % 256);
    NoLength();
    LengthExact(n);
    PowGrows(Length(n) % 256 + 1, Length(n) - 1);
    assert 2 * n >= 256 * p;
    FarOff(n, Expand(Compact(n)), p);
  }

  lemma FarOff(n: nat, r: int, p: nat)
    requires r < p && 2 * n >= 256 * p
    ensures !Near(n, r)
  {
  }

  lemma ExpandBelow(nCompact: nat, nSize: nat)
    requires nCompact < 0x1_0000_0000 && nSize == nCompact / 0x100_0000
    ensures Expand(nCompact) < Pow256(nSize) && Pow256(nSize + 1) == 256 * Pow256(nSize)
  {
    hide Val, Top;
    var body := if nSize <= 3 then Top(nCompact)[..nSize] else Top(nCompact) + ZeroBytes(nSize - 3);
    assert |body| == nSize && Expand(nCompact) == Denoted(body);
  }

  /** The compact form keeps the order. */
  lemma CompactMonotone(m: int, n: int)
    requires m <= n && Length(Abs(m)) < 256 && Length(Abs(n)) < 256
    ensures Expand(Compact(m)) <= Expand(Compact(n))
  {
    hide Expand, Compact, Length, Kept;
    ExpandCompact(m);
    ExpandCompact(n);
    if 0 <= m {
      KeptMonotone(m, n);
    } else if n < 0 {
      KeptMonotone(-n, -m);
    }
  }

  lemma QuotientMonotone(m: nat, n: nat, p: nat)
    requires m <= n && p > 0
    ensures m / p * p <= n / p * p
  {
    assert m == p * (m / p) + m % p && n == p * (n / p) + n % p;
    Scale(p, m / p - n / p);
    assert p * (m / p - n / p) == p * (m / p) - p * (n / p);
  }
}

/** Numbers as runs of bytes, the most significant first.

    Val reads a number off a run, Digits writes one of a given length; the two are inverse on numbers
    that fit. Memcpy copies a run into a buffer. */
module Bytes {
  import opened Arithmetic
  import opened Sequences

  type Byte = b: nat | b < 256

  /** 256^k. */
  function Pow256(k: nat): (p: nat)
    ensures p > 0
  {
    if k == 0 then 1 else 256 * Pow256(k - 1)
  }

  lemma {:induction false} PowSum(j: nat, k: nat)
    ensures Pow256(j + k) == Pow256(j) * Pow256(k)
  {
    if j != 0 {
      PowSum(j - 1, k);
      Associate(256, Pow256(j - 1), Pow256(k));
    }
  }

  lemma {:induction false} PowGrows(j: nat, k: nat)
    requires j <= k
    ensures Pow256(j) <= Pow256(k)
  {
    if j < k {
      PowGrows(j, k - 1);
    }
  }

  function Val(s: seq<Byte>): (v: nat)
    ensures v < Pow256(|s|)
  {
    if s == [] then 0 else 256 * Val(s[..|s| - 1]) + s[|s| - 1]
  }

  /** The k lowest bytes of n. */
  function Digits(n: nat, k: nat): (s: seq<Byte>)
    ensures |s| == k
  {
    if k == 0 then [] else Digits(n / 256, k - 1) + [n % 256]
  }

  lemma {:induction false} DigitsVal(n: nat, k: nat)
    requires n < Pow256(k)
    ensures Val(Digits(n, k)) == n
  {
    if k != 0 {
      DigitsVal(n / 256, k - 1);
    }
  }

  lemma {:induction false} ValDigits(s: seq<Byte>)
    ensures Digits(Val(s), |s|) == s
  {
    if s != [] {
      ValDigits(s[..|s| - 1]);
    }
  }

  lemma {:induction false} ConcatVal(s: seq<Byte>, r: seq<Byte>)
    ensures Val(s + r) == Val(s) * Pow256(|r|) + Val(r)
  {
    if r == [] {
      assert s + r == s;
    } else {
      var k := |r| - 1;
      ConcatVal(s, r[..k]);
      assert (s + r)[..|s + r| - 1] == s + r[..k];
      Times256(Val(s), Pow256(k), Val(r[..k]));
    }
  }

  lemma Times256(v: nat, p: nat, w: nat)
    ensures 256 * (v * p + w) == v * (256 * p) + 256 * w
  {
    Associate(256, v, p);
    Associate(v, 256, p);
  }

  /** The leading bytes are the number divided, the trailing ones its remainder. */
  lemma SplitVal(s: seq<Byte>, i: nat)
    requires i <= |s|
    ensures Val(s[..i]) == Val(s) / Pow256(|s| - i) && Val(s[i..]) == Val(s) % Pow256(|s| - i)
    ensures Val(s) == Val(s[..i]) * Pow256(|s| - i) + Val(s[i..])
  {
    hide Val, Pow256;
    ConcatVal(s[..i], s[i..]);
    assert s == s[..i] + s[i..];
    Divide(Val(s), Val(s[..i]), Pow256(|s| - i), Val(s[i..]));
  }

  lemma Divide(v: nat, q: nat, p: nat, r: nat)
    requires v == q * p + r && r < p
    ensures v / p == q && v % p == r
  {
    assert p * q == q * p;
    ModUnique(v, p, q, r);
  }

  lemma {:induction false} LeadingZero(s: seq<Byte>)
    ensures Val([0] + s) == Val(s)
  {
    if s == [] {
      assert [0] + s == [0];
      assert Val([0]) == 256 * Val([]) + 0;
    } else {
      LeadingZero(s[..|s| - 1]);
      assert ([0] + s)[..|s|] == [0] + s[..|s| - 1];
    }
  }

  function ZeroBytes(n: nat): seq<Byte> {
    Repeat(0, n)
  }

  method Memcpy(dst: array<Byte>, at: nat, src: seq<Byte>)
    requires at + |src| <= dst.Length
    modifies dst
    ensures dst[..at + |src|] == old(dst[..at]) + src && dst[at + |src|..] == old(dst[at + |src|..])
  {
    var i := 0;
    while i < |src|
      invariant i <= |src|
      invariant dst[..at] == old(dst[..at]) && dst[at + i..] == old(dst[at + i..])
      invariant dst[at..at + i] == src[..i]
    {
      dst[at + i] := src[i];
      i := i + 1;
    }
    assert dst[..at + |src|] == dst[..at] + dst[at..at + |src|];
  }
}

/** The orders in which the unrolled rounds name the lanes (src/keccak.c:1139-1156).

    The lanes stay where they are in the array, and pi is done by naming them differently: each order
    is the one before followed by pi, so after eight rounds the last order tells where the lanes have
    to be put back. An order lists array positions at index 5x + y. */
module KeccakOrders {

  // ---------- Orders (src/keccak.c:1139-1156) ----------

  /** An order lists the array position of lane (x, y) at index 5x + y. */
  ghost predicate IsOrder(p: seq<nat>) {
    && |p| == 25
    && (forall k | 0 <= k < 25 :: p[k] < 25)
    && (forall j, k | 0 <= j < k < 25 :: p[j] != p[k])
  }

  /** Where the lanes are in the array (src/keccak.c:153-177). */
  const a00: nat := 0
  const a10: nat := 1
  const a20: nat := 2
  const a30: nat := 3
  const a40: nat := 4
  const a01: nat := 5
  const a11: nat := 6
  const a21: nat := 7
  const a31: nat := 8
  const a41: nat := 9
  const a02: nat := 10
  const a12: nat := 11
  const a22: nat := 12
  const a32: nat := 13
  const a42: nat := 14
  const a03: nat := 15
  const a13: nat := 16
  const a23: nat := 17
  const a33: nat := 18
  const a43: nat := 19
  const a04: nat := 20
  const a14: nat := 21
  const a24: nat := 22
  const a34: nat := 23
  const a44: nat := 24

  /** The orders of the unrolled rounds, lane (x, y) at index 5x + y. */
  function P(r: nat): seq<nat>
    requires r <= 8
  {
    if r == 0 then
      [a00, a01, a02, a03, a04, a10, a11, a12, a13, a14, a20, a21, a22,
       a23, a24, a30, a31, a32, a33, a34, a40, a41, a42, a43, a44]
    else if r == 1 then
      [a00, a30, a10, a40, a20, a11, a41, a21, a01, a31, a22, a02, a32,
       a12, a42, a33, a13, a43, a23, a03, a44, a24, a04, a34, a14]
    else if r == 2 then
      [a00, a33, a11, a44, a22, a41, a24, a02, a30, a13, a32, a10, a43,
       a21, a04, a23, a01, a34, a12, a40, a14, a42, a20, a03, a31]
    else if r == 3 then
      [a00, a23, a41, a14, a32, a24, a42, a10, a33, a01, a43, a11, a34,
       a02, a20, a12, a30, a03, a21, a44, a31, a04, a22, a40, a13]
    else if r == 4 then
      [a00, a12, a24, a31, a43, a42, a04, a11, a23, a30, a34, a41, a03,
       a10, a22, a21, a33, a40, a02, a14, a13, a20, a32, a44, a01]
    else if r == 5 then
      [a00, a21, a42, a13, a34, a04, a20, a41, a12, a33, a03, a24, a40,
       a11, a32, a02, a23, a44, a10, a31, a01, a22, a43, a14, a30]
    else if r == 6 then
      [a00, a02, a04, a01, a03, a20, a22, a24, a21, a23, a40, a42, a44,
       a41, a43, a10, a12, a14, a11, a13, a30, a32, a34, a31, a33]
    else if r == 7 then
      [a00, a10, a20, a30, a40, a22, a32, a42, a02, a12, a44, a04, a14,
       a24, a34, a11, a21, a31, a41, a01, a33, a43, a03, a13, a23]
    else
      [a00, a11, a22, a33, a44, a32, a43, a04, a10, a21, a14, a20, a31,
       a42, a03, a41, a02, a13, a24, a30, a23, a34, a40, a01, a12]
  }

  /** The index pi takes lane k from. */
  function PiIndex(k: nat): nat {
    5 * ((k / 5 + 3 * (k % 5)) % 5) + k / 5 % 5
  }

  function AfterPi(p: seq<nat>): seq<nat>
    requires |p| == 25
  {
    [p[0], p[15], p[5], p[20], p[10], p[6], p[21], p[11], p[1], p[16],
     p[12], p[2], p[17], p[7], p[22], p[18], p[8], p[23], p[13], p[3],
     p[24], p[14], p[4], p[19], p[9]]
  }

  lemma AfterPiAt(p: seq<nat>, k: nat)
    requires |p| == 25 && k < 25
    ensures AfterPi(p)[k] == p[PiTable(k)] && PiTable(k) == PiIndex(k)
  {
    PiIndexIs(k);
    hide PiIndex;
    var q := AfterPi(p);
    assert q[0] == p[0] && q[1] == p[15] && q[2] == p[5] && q[3] == p[20] && q[4] == p[10];
    assert q[5] == p[6] && q[6] == p[21] && q[7] == p[11] && q[8] == p[1] && q[9] == p[16];
    assert q[10] == p[12] && q[11] == p[2] && q[12] == p[17] && q[13] == p[7] && q[14] == p[22];
    assert q[15] == p[18] && q[16] == p[8] && q[17] == p[23] && q[18] == p[13] && q[19] == p[3];
    assert q[20] == p[24] && q[21] == p[14] && q[22] == p[4] && q[23] == p[19] && q[24] == p[9];
    hide AfterPi;
  }

  function PiTable(k: nat): (i: nat)
    ensures i < 25
  {
    if k == 0 then 0 else if k == 1 then 15 else if k == 2 then 5 else if k == 3 then 20
    else if k == 4 then 10 else if k == 5 then 6 else if k == 6 then 21
    else if k == 7 then 11 else if k == 8 then 1 else if k == 9 then 16
    else if k == 10 then 12 else if k == 11 then 2 else if k == 12 then 17
    else if k == 13 then 7 else if k == 14 then 22 else if k == 15 then 18
    else if k == 16 then 8 else if k == 17 then 23 else if k == 18 then 13
    else if k == 19 then 3 else if k == 20 then 24 else if k == 21 then 14
    else if k == 22 then 4 else if k == 23 then 19 else 9
  }

  lemma PiIndexIs(k: nat)
    requires k < 25
    ensures PiIndex(k) == PiTable(k)
  {
    var x, y := k / 5, k % 5;
    var s, q := (x + 3 * y) % 5, (x + 3 * y) / 5;
    assert x + 3 * y == 5 * q + s && q <= 3;
    FromTable(k, x, y, s, q);
    hide PiTable;
  }

  lemma FromTable(k: nat, x: nat, y: nat, s: nat, q: nat)
    requires x < 5 && y < 5 && k == 5 * x + y && s < 5 && q < 4 && x + 3 * y == 5 * q + s
    ensures PiTable(k) == 5 * s + x
  {
  }

  lemma Order1()
    ensures P(1) == AfterPi(P(0))
  {
  }

  lemma Order2()
    ensures P(2) == AfterPi(P(1))
  {
  }

  lemma Order3()
    ensures P(3) == AfterPi(P(2))
  {
  }

  lemma Order4()
    ensures P(4) == AfterPi(P(3))
  {
  }

  lemma Order5()
    ensures P(5) == AfterPi(P(4))
  {
  }

  lemma Order6()
    ensures P(6) == AfterPi(P(5))
  {
  }

  lemma Order7()
    ensures P(7) == AfterPi(P(6))
  {
  }

  lemma Order8()
    ensures P(8) == AfterPi(P(7))
  {
  }

  lemma Next(r: nat)
    requires r < 8
    ensures P(r + 1) == AfterPi(P(r))
  {
    Order1();
    Order2();
    Order3();
    Order4();
    Order5();
    Order6();
    Order7();
    Order8();
    hide P, AfterPi;
  }

  lemma {:induction false} IsOrderP(r: nat)
    requires r <= 8
    ensures IsOrder(P(r)) && P(r)[0] == 0
  {
    if r == 0 {
      FirstOrder();
    } else {
      IsOrderP(r - 1);
      Next(r - 1);
      OrderAfterPi(P(r - 1));
    }
  }

  lemma FirstOrder()
    ensures IsOrder(P(0)) && P(0)[0] == 0
  {
    forall k | 0 <= k < 25
      ensures P(0)[k] == k / 5 + 5 * (k % 5)
    {
      var x, y := k / 5, k % 5;
      FirstAt(k, x, y);
    }
    hide P;
  }

  lemma FirstAt(k: nat, x: nat, y: nat)
    requires x < 5 && y < 5 && k == 5 * x + y
    ensures P(0)[k] == x + 5 * y
  {
  }

  lemma OrderAfterPi(p: seq<nat>)
    requires IsOrder(p)
    ensures IsOrder(AfterPi(p)) && AfterPi(p)[0] == p[0]
  {
    var q := AfterPi(p);
    forall k | 0 <= k < 25
      ensures q[k] == p[PiTable(k)]
    {
      AfterPiAt(p, k);
    }
    hide AfterPi;
    forall j, k | 0 <= j < k < 25
      ensures q[j] != q[k]
    {
      PiInjective(j, k);
    }
  }

  lemma PiInjective(j: nat, k: nat)
    requires j < k < 25
    ensures PiTable(j) != PiTable(k)
  {
  }
}

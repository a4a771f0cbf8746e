/** The whole permutation (src/keccak.c:1313-1347, 1454-1467).

    Three times eight rounds, each in the order the one before leaves, and after every eight the
    lanes are put back in their places by eight cycles of three. The result is Keccak-f[1600] of the
    state the array stands for, with the complement at rest before and after. */
module KeccakPermutation {
  import opened KeccakConstants
  import opened KeccakSpec
  import opened KeccakMask
  import opened KeccakOrders
  import opened KeccakRound

  method Cycle(w: array<Lane>, i: nat, j: nat, k: nat)
    requires w.Length == 25 && i < 25 && j < 25 && k < 25 && i != j && j != k && i != k
    modifies w
    ensures w[..] == Cycled(old(w[..]), i, j, k)
  {
    var t := w[i];
    w[i] := w[j];
    w[j] := w[k];
    w[k] := t;
  }

  function Cycled(s: seq<Lane>, i: nat, j: nat, k: nat): (r: seq<Lane>)
    requires |s| == 25 && i < 25 && j < 25 && k < 25
    ensures |r| == 25
  {
    s[i := s[j]][j := s[k]][k := s[i]]
  }

  method P8ToP0(w: array<Lane>)
    requires w.Length == 25 && IsOrder(P(0)) && IsOrder(P(8))
    modifies w
    ensures View(w[..], P(0)) == View(old(w[..]), P(8))
  {
    ghost var s := w[..];
    Cycle(w, a01, a11, a43);
    Cycle(w, a02, a22, a31);
    Cycle(w, a03, a33, a24);
    Cycle(w, a04, a44, a12);
    Cycle(w, a10, a32, a13);
    Cycle(w, a14, a21, a20);
    Cycle(w, a23, a42, a40);
    Cycle(w, a30, a41, a34);
    CyclesUndo(s, w[..]);
  }

  lemma CyclesUndo(s: seq<Lane>, r: seq<Lane>)
    requires |s| == 25 && IsOrder(P(0)) && IsOrder(P(8))
    requires r == Cycled(Cycled(Cycled(Cycled(Cycled(Cycled(Cycled(Cycled(s, a01, a11, a43), a02, a22, a31),
                    a03, a33, a24), a04, a44, a12), a10, a32, a13), a14, a21, a20), a23, a42, a40), a30, a41, a34)
    ensures View(r, P(0)) == View(s, P(8))
  {
    hide IsOrder;
    assert r[a00] == s[a00] && r[a01] == s[a11] && r[a02] == s[a22] && r[a03] == s[a33] && r[a04] == s[a44];
    assert r[a10] == s[a32] && r[a11] == s[a43] && r[a12] == s[a04] && r[a13] == s[a10] && r[a14] == s[a21];
    assert r[a20] == s[a14] && r[a21] == s[a20] && r[a22] == s[a31] && r[a23] == s[a42] && r[a24] == s[a03];
    assert r[a30] == s[a41] && r[a31] == s[a02] && r[a32] == s[a13] && r[a33] == s[a24] && r[a34] == s[a30];
    assert r[a40] == s[a23] && r[a41] == s[a34] && r[a42] == s[a40] && r[a43] == s[a01] && r[a44] == s[a12];
    hide Cycled;
    forall k | 0 <= k < 25
      ensures r[P(0)[k]] == s[P(8)[k]]
    {
    }
  }

  /** Rounds j to j + i, starting from round j. */
  ghost function From(a: Lanes, j: nat, i: nat): Lanes
    requires j + i <= 24
  {
    if i == 0 then a else Round(From(a, j, i - 1), RoundConstant(j + i - 1))
  }

  lemma {:induction false} FromRounds(a: Lanes, j: nat, i: nat)
    requires j + i <= 24
    ensures From(Rounds(a, j), j, i) == Rounds(a, j + i)
  {
    hide Round, RoundConstant;
    if i != 0 {
      FromRounds(a, j, i - 1);
    }
  }

  lemma OrdersAreOrders()
    ensures forall r | 0 <= r <= 8 :: IsOrder(P(r))
  {
    forall r | 0 <= r <= 8
      ensures IsOrder(P(r))
    {
      IsOrderP(r);
    }
  }

  /** Eight rounds from round j on, and the lanes put back. */
  method EightRounds(w: array<Lane>, j: nat)
    requires w.Length == 25 && j + 8 <= 24 && IsOrder(P(0))
    modifies w
    ensures Plain(w[..], 0) == From(Plain(old(w[..]), 0), j, 8)
  {
    hide RC, RoundConstant, P, Plain, Round;
    OrdersAreOrders();
    ConstantsFollowRegister();
    ghost var a := Plain(w[..], 0);
    KfElt(w, 0, RC(j + 0));
    assert Plain(w[..], 1) == From(a, j, 1);
    KfElt(w, 1, RC(j + 1));
    assert Plain(w[..], 2) == From(a, j, 2);
    KfElt(w, 2, RC(j + 2));
    assert Plain(w[..], 3) == From(a, j, 3);
    KfElt(w, 3, RC(j + 3));
    assert Plain(w[..], 4) == From(a, j, 4);
    KfElt(w, 4, RC(j + 4));
    assert Plain(w[..], 5) == From(a, j, 5);
    KfElt(w, 5, RC(j + 5));
    assert Plain(w[..], 6) == From(a, j, 6);
    KfElt(w, 6, RC(j + 6));
    assert Plain(w[..], 7) == From(a, j, 7);
    KfElt(w, 7, RC(j + 7));
    assert Plain(w[..], 8) == From(a, j, 8);
    ghost var s := w[..];
    P8ToP0(w);
    SamePlain(s, w[..]);
  }

  lemma SamePlain(s: seq<Lane>, r: seq<Lane>)
    requires |s| == 25 && |r| == 25 && IsOrder(P(0)) && IsOrder(P(8)) && View(r, P(0)) == View(s, P(8))
    ensures Plain(r, 0) == Plain(s, 8)
  {
  }

  method KeccakF1600(w: array<Lane>)
    requires w.Length == 25 && IsOrder(P(0))
    modifies w
    ensures Plain(w[..], 0) == KeccakF(Plain(old(w[..]), 0))
  {
    hide P, Plain, Round, RoundConstant, From;
    var j := 0;
    while j < 24
      invariant 0 <= j <= 24 && j % 8 == 0
      invariant Plain(w[..], 0) == Rounds(Plain(old(w[..]), 0), j)
    {
      FromRounds(Plain(old(w[..]), 0), j, 8);
      EightRounds(w, j);
      j := j + 8;
    }
  }
}

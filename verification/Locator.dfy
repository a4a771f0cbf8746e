/** The block locator (src/main.h:1470-1522): hashes at distances that double, by which a peer finds
    the last block the two have in common. */
module Locator {
  import opened Arithmetic
  import opened BlockTree

  /** The largest k with 2^k at most n. */
  function Log2(n: nat): nat
    requires n > 0
  {
    if n == 1 then 0 else 1 + Log2(n / 2)
  }

  lemma {:induction false} Log2AtLeast(n: nat, k: nat)
    requires n >= Pow2(k)
    ensures Log2(n) >= k
  {
    if k != 0 {
      Log2AtLeast(n / 2, k - 1);
    }
  }

  /** How far back the k-th entry lies: one by one up to the tenth, then 9 + 2^(k - 10). */
  function Pos(k: nat): (p: nat)
    ensures p >= k
  {
    if k <= 10 then k else 9 + Pow2(k - 10)
  }

  function Step(k: nat): nat {
    if k <= 10 then 1 else Pow2(k - 10)
  }

  lemma PosNext(k: nat)
    ensures Pos(k + 1) == Pos(k) + Step(k)
  {
    if k >= 10 {
      assert Pow2(k + 1 - 10) == 2 * Pow2(k - 10);
      assert k == 10 ==> Pow2(k - 10) == 1;
    }
  }

  lemma {:induction false} PosGrows(j: nat, k: nat)
    requires j < k
    ensures Pos(j) < Pos(k)
  {
    PosNext(k - 1);
    if j < k - 1 {
      PosGrows(j, k - 1);
    }
  }

  /** The list for block p: every distance that still is in the chain, then genesis once more. */
  ghost predicate Locates(t: Tree, genesis: Id, p: Id, vHave: seq<Id>)
    requires WellFormed(t)
  {
    && p in t && |vHave| >= 2 && vHave[|vHave| - 1] == genesis
    && Pos(|vHave| - 2) <= t[p].nHeight < Pos(|vHave| - 1)
    && (forall k | 0 <= k < |vHave| - 1 :: Pos(k) <= t[p].nHeight && vHave[k] == Back(t, p, Pos(k)))
  }

  lemma LocatorLength(t: Tree, genesis: Id, p: Id, vHave: seq<Id>)
    requires WellFormed(t) && Locates(t, genesis, p, vHave)
    ensures |vHave| <= 12 + Log2(t[p].nHeight + 1)
  {
    hide WellFormed, Back, Log2;
    if |vHave| > 12 {
      Log2AtLeast(t[p].nHeight + 1, |vHave| - 12);
    }
  }

  // ---------- The receiver's side ----------

  /** The main chain of a tree ends in its best block. */
  predicate IsInMainChain(t: Tree, best: Id, b: Id)
    requires WellFormed(t)
  {
    b in t && IsAncestor(t, b, best)
  }

  /** Two nodes' trees: a block has the same predecessor wherever it is known, and the same genesis. */
  ghost predicate Agree(t: Tree, u: Tree, genesis: Id) {
    && WellFormed(t) && WellFormed(u) && genesis in t && genesis in u
    && t[genesis].nHeight == 0
    && (forall b | b in t && b in u :: t[b] == u[b])
    && (forall b | b in t && t[b].nHeight == 0 :: b == genesis)
    && (forall b | b in u && u[b].nHeight == 0 :: b == genesis)
  }

  /** The block n back from p is common to p's chain and the receiver's main chain. */
  predicate Common(t: Tree, u: Tree, best: Id, p: Id, n: nat)
    requires WellFormed(t) && WellFormed(u) && p in t && n <= t[p].nHeight
  {
    IsInMainChain(u, best, Back(t, p, n))
  }

  lemma GenesisCommon(t: Tree, u: Tree, genesis: Id, best: Id, p: Id)
    requires Agree(t, u, genesis) && p in t && best in u
    ensures WellFormed(t) && WellFormed(u)
    ensures Back(t, p, t[p].nHeight) == genesis && IsInMainChain(u, best, genesis)
    ensures Common(t, u, best, p, t[p].nHeight)
  {
    assert t[Back(t, p, t[p].nHeight)].nHeight == 0;
    assert u[Back(u, best, u[best].nHeight)].nHeight == 0;
    assert t[genesis] == u[genesis];
  }

  lemma CommonNext(t: Tree, u: Tree, genesis: Id, best: Id, p: Id, n: nat)
    requires Agree(t, u, genesis) && p in t && best in u && n < t[p].nHeight
    requires Common(t, u, best, p, n)
    ensures Common(t, u, best, p, n + 1)
  {
    var b, a := Back(t, p, n), Back(t, p, n + 1);
    BackNext(t, p, n);
    assert t[b] == u[b] && u[b].pprev == To(a);
    assert WellPlaced(u, u[b]);
    hide Agree, IsInMainChain;
    assert Back(u, b, 1) == a;
    CommonParent(u, best, b, a);
  }

  lemma CommonParent(u: Tree, best: Id, b: Id, a: Id)
    requires WellFormed(u) && best in u && IsInMainChain(u, best, b)
    requires u[b].nHeight >= 1 && Back(u, b, 1) == a
    ensures IsInMainChain(u, best, a)
  {
    BackIsAncestor(u, b, 1);
    AncestorTransitive(u, a, b, best);
  }

  lemma {:induction false} CommonAbove(t: Tree, u: Tree, genesis: Id, best: Id, p: Id, m: nat, n: nat)
    requires Agree(t, u, genesis) && p in t && best in u && m <= n <= t[p].nHeight
    requires Common(t, u, best, p, m)
    ensures Common(t, u, best, p, n)
    decreases n - m
  {
    if m < n {
      CommonNext(t, u, genesis, best, p, m);
      CommonAbove(t, u, genesis, best, p, m + 1, n);
    }
  }

  /** The fork point is d blocks back: the first common block. */
  ghost predicate ForkAt(t: Tree, u: Tree, best: Id, p: Id, d: nat)
    requires WellFormed(t) && WellFormed(u)
  {
    && p in t && d <= t[p].nHeight && Common(t, u, best, p, d)
    && (forall n | 0 <= n < d :: !Common(t, u, best, p, n))
  }

  /** The first entry on the main chain. */
  ghost predicate FirstKnown(u: Tree, best: Id, vHave: seq<Id>, k: nat)
    requires WellFormed(u)
  {
    k < |vHave| && IsInMainChain(u, best, vHave[k]) && forall j | 0 <= j < k :: !IsInMainChain(u, best, vHave[j])
  }

  /** For a locator made by Set the first known entry is the first one at least as far back as the fork. */
  lemma FirstKnownIs(t: Tree, u: Tree, genesis: Id, best: Id, p: Id, vHave: seq<Id>, d: nat, k: nat)
    requires Agree(t, u, genesis) && best in u && Locates(t, genesis, p, vHave)
    requires ForkAt(t, u, best, p, d) && FirstKnown(u, best, vHave, k)
    ensures Pos(k) >= d && (k > 0 ==> Pos(k - 1) < d)
    ensures k == |vHave| - 1 ==> vHave[k] == Back(t, p, t[p].nHeight)
  {
    hide Agree, IsInMainChain, Pos;
    GenesisCommon(t, u, genesis, best, p);
    if k < |vHave| - 1 {
      assert Common(t, u, best, p, Pos(k));
    }
    if k > 0 && Pos(k - 1) >= d {
      CommonAbove(t, u, genesis, best, p, d, Pos(k - 1));
    }
  }

  /** The block a peer finds is common to both chains, at the fork itself when that is at most eleven
      blocks back, and otherwise less than twice as far. */
  lemma FoundBlock(t: Tree, u: Tree, genesis: Id, best: Id, p: Id, vHave: seq<Id>, d: nat, k: nat) returns (e: nat)
    requires Agree(t, u, genesis) && best in u && Locates(t, genesis, p, vHave)
    requires ForkAt(t, u, best, p, d) && FirstKnown(u, best, vHave, k)
    ensures d <= e <= t[p].nHeight && Back(t, p, e) == vHave[k] && Common(t, u, best, p, e)
    ensures if d <= 11 then e == d else e < 2 * d
    ensures e == if k < |vHave| - 1 then Pos(k) else t[p].nHeight
  {
    hide Agree, IsInMainChain;
    GenesisCommon(t, u, genesis, best, p);
    FirstKnownIs(t, u, genesis, best, p, vHave, d, k);
    e := if k < |vHave| - 1 then Pos(k) else t[p].nHeight;
    CommonAbove(t, u, genesis, best, p, d, e);
    if k > 0 {
      PosNext(k - 1);
      if k > 11 {
        assert Step(k - 1) == 2 * Pow2(k - 12);
      }
    }
  }

  /** The distance told from the list alone, by GetDistanceBack, is that of the block found exactly when
      the fork is no farther back than the last entry before the appended genesis; if it is, genesis is
      found but taken to lie at the place in the list that the next entry would have had. */
  lemma DistanceExactWhen(t: Tree, u: Tree, genesis: Id, best: Id, p: Id, vHave: seq<Id>, d: nat, k: nat)
    returns (e: nat)
    requires Agree(t, u, genesis) && best in u && Locates(t, genesis, p, vHave)
    requires ForkAt(t, u, best, p, d) && FirstKnown(u, best, vHave, k)
    ensures e <= t[p].nHeight && Back(t, p, e) == vHave[k]
    ensures e <= Pos(k) && (Pos(k) == e <==> d <= Pos(|vHave| - 2))
  {
    hide Agree, IsInMainChain, Pos;
    FirstKnownIs(t, u, genesis, best, p, vHave, d, k);
    e := FoundBlock(t, u, genesis, best, p, vHave, d, k);
    if k < |vHave| - 2 {
      PosGrows(k, |vHave| - 2);
    }
  }

  /** The blocks 0 to n, one after the other. */
  function Chain(n: nat): Tree {
    map i: nat | i <= n :: Link(i)
  }

  function Link(i: nat): Block {
    Block(if i == 0 then Null else To(i - 1), i, 0, false, 0, 0, false, 0)
  }

  lemma ChainForks(n: nat)
    ensures Agree(Chain(n), Chain(0), 0) && 0 in Chain(0) && n in Chain(n) && Chain(n)[n].nHeight == n
    ensures ForkAt(Chain(n), Chain(0), 0, n, n)
  {
    var t, u := Chain(n), Chain(0);
    assert WellFormed(t) && WellFormed(u);
    hide WellFormed;
    GenesisCommon(t, u, 0, 0, n);
    forall m | 0 <= m < n
      ensures !Common(t, u, 0, n, m)
    {
      assert t[Back(t, n, m)].nHeight == n - m;
    }
  }

  lemma PlaceTold(k: nat)
    requires Pos(k) >= 20 && (k > 0 ==> Pos(k - 1) < 20)
    ensures Pos(k) == 25
  {
    assert Pos(13) == 17 && Pos(14) == 25;
    hide Pos;
    if k < 13 {
      PosGrows(k, 13);
    } else if k > 15 {
      PosGrows(14, k - 1);
    }
  }

  /** A locator for block 20 read by a node that has genesis alone: genesis is 20 back, 25 is told. */
  lemma DistanceOvershoots(vHave: seq<Id>, k: nat)
    requires WellFormed(Chain(20)) && Locates(Chain(20), 0, 20, vHave)
    requires WellFormed(Chain(0)) && FirstKnown(Chain(0), 0, vHave, k)
    ensures 20 in Chain(20) && Chain(20)[20].nHeight == 20 && vHave[k] == Back(Chain(20), 20, 20) && Pos(k) == 25
  {
    hide *;
    ChainForks(20);
    AgreeFacts(Chain(20), Chain(0), 0);
    FirstKnownIs(Chain(20), Chain(0), 0, 0, 20, vHave, 20, k);
    var e := FoundBlock(Chain(20), Chain(0), 0, 0, 20, vHave, 20, k);
    PlaceTold(k);
  }

  /** Two trees with one genesis have a fork point. */
  lemma ForkExists(t: Tree, u: Tree, genesis: Id, best: Id, p: Id) returns (d: nat)
    requires Agree(t, u, genesis) && p in t && best in u
    ensures ForkAt(t, u, best, p, d)
  {
    hide Agree, Common, WellFormed, Back;
    GenesisCommon(t, u, genesis, best, p);
    d := 0;
    while !Common(t, u, best, p, d)
      invariant d <= t[p].nHeight
      invariant forall n | 0 <= n < d :: !Common(t, u, best, p, n)
      decreases t[p].nHeight - d
    {
      d := d + 1;
    }
  }

  /** The receiver knows some entry of a locator, the last one if no other. */
  lemma SomeKnown(t: Tree, u: Tree, genesis: Id, best: Id, p: Id, vHave: seq<Id>)
    requires Agree(t, u, genesis) && best in u && Locates(t, genesis, p, vHave)
    ensures exists j :: 0 <= j < |vHave| && IsInMainChain(u, best, vHave[j])
  {
    GenesisCommon(t, u, genesis, best, p);
    assert vHave[|vHave| - 1] == genesis;
  }

  class Locator {
    var vHave: seq<Id>

    constructor ()
      ensures vHave == []
    {
      vHave := [];
    }

    method Set(t: Tree, genesis: Id, pindex: Pointer)
      requires WellFormed(t) && (pindex.To? ==> pindex.id in t)
      modifies this
      ensures pindex == Null ==> vHave == [genesis]
      ensures pindex.To? ==> Locates(t, genesis, pindex.id, vHave)
    {
      hide Covers, WellFormed, Pos, Step, At;
      vHave := [];
      var at := pindex;
      var nStep := 1;
      if pindex.To? {
        CoversNothing(t, pindex.id);
      }
      while at.To?
        invariant pindex == Null ==> at == Null && vHave == []
        invariant pindex.To? ==> Covers(t, pindex.id, vHave) && at == At(t, pindex.id, Pos(|vHave|))
        invariant pindex.To? ==> nStep == Step(|vHave|) && at.To? == (Pos(|vHave|) <= t[pindex.id].nHeight)
        invariant pindex.To? && at == Null ==> |vHave| > 0
        decreases if at.To? then t[pindex.id].nHeight + 1 - |vHave| else 0
      {
        CoversMore(t, pindex.id, vHave);
        ghost var n := Pos(|vHave|);
        vHave := vHave + [at.id];
        at := StepBack(t, pindex.id, n, at, nStep);
        AtIs(t, pindex.id, n + nStep);
        if |vHave| > 10 {
          nStep := nStep * 2;
        }
      }
      if pindex.To? {
        CoversAll(t, genesis, pindex.id, vHave);
      }
      vHave := vHave + [genesis];
    }

    /** How far back the first entry of the receiver's main chain lies, from the list alone. */
    method GetDistanceBack(u: Tree, best: Id) returns (nDistance: nat, k: nat)
      requires WellFormed(u)
      ensures if k < |vHave| then FirstKnown(u, best, vHave, k)
              else forall j | 0 <= j < |vHave| :: !IsInMainChain(u, best, vHave[j])
      ensures k <= |vHave| && nDistance == Pos(k)
    {
      hide IsInMainChain;
      nDistance := 0;
      var nStep := 1;
      k := 0;
      while k < |vHave|
        invariant k <= |vHave| && nDistance == Pos(k) && nStep == Step(k)
        invariant forall j | 0 <= j < k :: !IsInMainChain(u, best, vHave[j])
      {
        if IsInMainChain(u, best, vHave[k]) {
          return;
        }
        PosNext(k);
        nDistance := nDistance + nStep;
        if nDistance > 10 {
          nStep := nStep * 2;
        }
        k := k + 1;
      }
    }

    method GetBlockIndex(u: Tree, best: Id, pindexGenesisBlock: Id) returns (pindex: Id, k: nat)
      requires WellFormed(u)
      ensures if k < |vHave| then FirstKnown(u, best, vHave, k) && pindex == vHave[k]
              else pindex == pindexGenesisBlock && forall j | 0 <= j < |vHave| :: !IsInMainChain(u, best, vHave[j])
    {
      hide IsInMainChain;
      k := 0;
      while k < |vHave|
        invariant k <= |vHave|
        invariant forall j | 0 <= j < k :: !IsInMainChain(u, best, vHave[j])
      {
        if IsInMainChain(u, best, vHave[k]) {
          pindex := vHave[k];
          return;
        }
        k := k + 1;
      }
      pindex := pindexGenesisBlock;
    }
  }

  /** One node asks another for the blocks after its own block p: the block the answer starts from, and
      how far back it is taken to be. */
  method FindFork(t: Tree, u: Tree, genesis: Id, best: Id, p: Id)
    returns (pindex: Id, nDistance: nat, ghost d: nat, ghost e: nat)
    requires Agree(t, u, genesis) && p in t && best in u
    ensures ForkAt(t, u, best, p, d)
    ensures d <= e <= t[p].nHeight && pindex == Back(t, p, e) && Common(t, u, best, p, e)
    ensures if d <= 11 then e == d else e < 2 * d
    ensures nDistance == e <==> exists k :: 0 <= k && d <= Pos(k) <= t[p].nHeight
  {
    hide Agree, IsInMainChain, Common, Locates, ForkAt, Pos;
    AgreeFacts(t, u, genesis);
    var locator := new Locator();
    locator.Set(t, genesis, To(p));
    ghost var vHave := locator.vHave;
    SomeKnown(t, u, genesis, best, p, vHave);
    d := ForkExists(t, u, genesis, best, p);
    var k, l;
    pindex, k := locator.GetBlockIndex(u, best, genesis);
    nDistance, l := locator.GetDistanceBack(u, best);
    e := FoundBlock(t, u, genesis, best, p, vHave, d, k);
    ghost var e' := DistanceExactWhen(t, u, genesis, best, p, vHave, d, k);
    SameBack(t, p, e, e');
    LastListed(t, genesis, p, vHave, d);
  }

  lemma AgreeFacts(t: Tree, u: Tree, genesis: Id)
    requires Agree(t, u, genesis)
    ensures WellFormed(t) && WellFormed(u)
  {
  }

  lemma SameBack(t: Tree, p: Id, m: nat, n: nat)
    requires WellFormed(t) && p in t && m <= t[p].nHeight && n <= t[p].nHeight && Back(t, p, m) == Back(t, p, n)
    ensures m == n
  {
    hide WellFormed;
  }

  /** The last entry before genesis is the farthest the list could hold. */
  lemma LastListed(t: Tree, genesis: Id, p: Id, vHave: seq<Id>, d: nat)
    requires WellFormed(t) && Locates(t, genesis, p, vHave)
    ensures d <= Pos(|vHave| - 2) <==> exists k :: 0 <= k && d <= Pos(k) <= t[p].nHeight
  {
    hide Pos, WellFormed;
    if k: nat :| d <= Pos(k) <= t[p].nHeight && k > |vHave| - 2 {
      if k > |vHave| - 1 {
        PosGrows(|vHave| - 1, k);
      }
    }
    forall k: nat | k < |vHave| - 2
      ensures Pos(k) < Pos(|vHave| - 2)
    {
      PosGrows(k, |vHave| - 2);
    }
  }

  /** The block n back, or null past genesis. */
  function At(t: Tree, p: Id, n: nat): Pointer
    requires WellFormed(t) && p in t
  {
    if n <= t[p].nHeight then To(Back(t, p, n)) else Null
  }

  lemma AtIs(t: Tree, p: Id, n: nat)
    requires WellFormed(t) && p in t
    ensures At(t, p, n).To? <==> n <= t[p].nHeight
  {
  }

  /** The entries so far. */
  ghost predicate Covers(t: Tree, p: Id, vHave: seq<Id>)
    requires WellFormed(t) && p in t
  {
    forall k | 0 <= k < |vHave| :: Pos(k) <= t[p].nHeight && vHave[k] == Back(t, p, Pos(k))
  }

  lemma CoversNothing(t: Tree, p: Id)
    requires WellFormed(t) && p in t
    ensures Covers(t, p, []) && At(t, p, Pos(0)) == To(p) && Step(0) == 1 && Pos(0) == 0
  {
  }

  lemma CoversMore(t: Tree, p: Id, vHave: seq<Id>)
    requires WellFormed(t) && p in t && Covers(t, p, vHave) && Pos(|vHave|) <= t[p].nHeight
    ensures var at, k := At(t, p, Pos(|vHave|)), |vHave|;
            && at.To? && Covers(t, p, vHave + [at.id])
            && Pos(k + 1) == Pos(k) + Step(k) && |vHave| <= Pos(k)
            && Step(k + 1) == if k + 1 > 10 then 2 * Step(k) else Step(k)
  {
    hide WellFormed;
    PosNext(|vHave|);
  }

  lemma CoversAll(t: Tree, genesis: Id, p: Id, vHave: seq<Id>)
    requires WellFormed(t) && p in t && Covers(t, p, vHave) && |vHave| > 0 && Pos(|vHave|) > t[p].nHeight
    ensures Locates(t, genesis, p, vHave + [genesis])
  {
    hide WellFormed, Pos;
  }

  /** The inner loop: nStep blocks back, or null. */
  method StepBack(t: Tree, p: Id, ghost n: nat, start: Pointer, nStep: nat) returns (pindex: Pointer)
    requires WellFormed(t) && p in t && start == At(t, p, n)
    ensures pindex == At(t, p, n + nStep)
  {
    hide WellFormed, Back, At;
    pindex := start;
    var i := 0;
    while pindex.To? && i < nStep
      invariant i <= nStep && pindex == At(t, p, n + i)
    {
      ParentAt(t, p, n + i);
      pindex := t[pindex.id].pprev;
      i := i + 1;
    }
    if i < nStep {
      NullAt(t, p, n + i, n + nStep);
    }
  }

  lemma ParentAt(t: Tree, p: Id, n: nat)
    requires WellFormed(t) && p in t && At(t, p, n).To?
    ensures At(t, p, n).id in t && t[At(t, p, n).id].pprev == At(t, p, n + 1)
  {
    BackNext(t, p, n);
    hide WellFormed, Back;
  }

  lemma NullAt(t: Tree, p: Id, n: nat, m: nat)
    requires WellFormed(t) && p in t && At(t, p, n).Null? && n <= m
    ensures At(t, p, m).Null?
  {
    hide WellFormed, Back;
  }
}

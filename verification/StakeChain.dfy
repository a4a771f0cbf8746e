/** What every chain keeps whose blocks store the modifier computed for them (src/main.cpp:1949-1987),
    and the modifier a kernel uses (src/kernel.cpp:213-243). */
module StakeChain {
  import opened Arithmetic
  import opened BlockTree
  import opened StakeModifier

  // ---------- The value depends on the ancestors alone ----------

  /** The two trees have the same blocks from b back. */
  ghost predicate SameBack(t: Tree, u: Tree, b: Id)
    requires WellFormed(t)
  {
    forall a | a in t && IsAncestor(t, a, b) :: a in u && u[a] == t[a]
  }

  lemma SameParent(t: Tree, u: Tree, b: Id)
    requires WellFormed(t) && WellFormed(u) && b in t && SameBack(t, u, b)
    ensures b in u && u[b] == t[b]
    ensures t[b].pprev.To? ==>
              && t[b].pprev.id in t && t[b].pprev.id in u && SameBack(t, u, t[b].pprev.id)
              && t[t[b].pprev.id].nHeight < t[b].nHeight
  {
    assert IsAncestor(t, b, b);
    if t[b].pprev.To? {
      var p := t[b].pprev.id;
      assert WellPlaced(t, t[b]);
      assert Back(t, b, 1) == p;
      assert IsAncestor(t, p, b);
      hide WellFormed;
      forall a | a in t && IsAncestor(t, a, p)
        ensures a in u && u[a] == t[a]
      {
        AncestorTransitive(t, a, p, b);
      }
    }
  }

  lemma {:induction false} LastSame(t: Tree, u: Tree, b: Id)
    requires WellFormed(t) && WellFormed(u) && b in t && b in u && SameBack(t, u, b)
    ensures Last(u, b) == Last(t, b) && u[Last(t, b)] == t[Last(t, b)]
    decreases t[b].nHeight
  {
    SameParent(t, u, b);
    hide WellFormed, SameBack;
    if t[b].pprev.To? && !t[b].fGenerated && WellPlaced(t, t[b]) {
      LastSame(t, u, t[b].pprev.id);
    }
  }

  /** The candidates are the same, and so are the blocks they stand for. */
  lemma {:induction false} SuffixSame(t: Tree, u: Tree, b: Id, start: int)
    requires WellFormed(t) && WellFormed(u) && b in t && b in u && SameBack(t, u, b)
    ensures Suffix(u, b, start) == Suffix(t, b, start)
    ensures forall c | c in Suffix(t, b, start) :: c.id in t && c.id in u && t[c.id] == u[c.id]
    decreases t[b].nHeight
  {
    SameParent(t, u, b);
    hide WellFormed, SameBack;
    if t[b].nTime >= start && t[b].pprev.To? {
      SuffixSame(t, u, t[b].pprev.id, start);
    }
  }

  ghost predicate SameBlocks(t: Tree, u: Tree, v: seq<Candidate>) {
    forall i | 0 <= i < |v| :: v[i].id in t && v[i].id in u && t[v[i].id] == u[v[i].id]
  }

  lemma CandidatesSame(t: Tree, u: Tree, b: Id)
    requires WellFormed(t) && WellFormed(u) && b in t && b in u && SameBack(t, u, b)
    ensures Candidates(u, b) == Candidates(t, b) && SameBlocks(t, u, Candidates(t, b))
  {
    hide Suffix, Sort, SameBack, WellFormed, Candidates, AllIndexed, DistinctIds, ByTime;
    SameParent(t, u, b);
    CandidatesAre(t, b);
    CandidatesAre(u, b);
    SuffixSame(t, u, b, Start(t, b));
    SortSorts(Suffix(t, b, Start(t, b)));
    var v := Candidates(t, b);
    forall i | 0 <= i < |v|
      ensures v[i].id in t && v[i].id in u && t[v[i].id] == u[v[i].id]
    {
      assert v[i] in v;
    }
  }

  lemma SelectionSame(t: Tree, u: Tree, hash: SelectionHash, prev: nat, v: seq<Candidate>, taken: set<Id>, stop: int,
                      i: nat)
    requires AllIndexed(t, v) && AllIndexed(u, v) && SameBlocks(t, u, v)
    ensures IsSelection(u, hash, prev, v, taken, stop, i) == IsSelection(t, hash, prev, v, taken, stop, i)
  {
    forall j | 0 <= j < |v|
      ensures Weight(u, hash, prev, v[j]) == Weight(t, hash, prev, v[j])
    {
    }
    hide Weight;
  }

  lemma {:induction false} PicksSame(t: Tree, u: Tree, hash: SelectionHash, prev: nat, v: seq<Candidate>, start: int,
                                     picks: seq<nat>)
    requires AllIndexed(t, v) && AllIndexed(u, v) && SameBlocks(t, u, v)
    ensures ArePicks(u, hash, prev, v, start, picks) == ArePicks(t, hash, prev, v, start, picks)
    ensures ArePicks(t, hash, prev, v, start, picks) ==> BitSum(u, v, picks) == BitSum(t, v, picks)
  {
    hide IsSelection, AllIndexed;
    if picks != [] {
      var k := |picks| - 1;
      PicksSame(t, u, hash, prev, v, start, picks[..k]);
      if |picks| <= 64 && forall r | 0 <= r < |picks| :: picks[r] < |v| {
        SelectionSame(t, u, hash, prev, v, Taken(v, picks[..k]), start + Sections(k + 1), picks[k]);
      }
    }
  }

  /** Whatever other blocks the trees hold, the modifier on top of b is the same. */
  lemma DependsOnAncestors(t: Tree, u: Tree, hash: SelectionHash, b: Id, nStakeModifier: nat, fGenerated: bool,
                           picks: seq<nat>)
    requires WellFormed(t) && WellFormed(u) && b in t && b in u && SameBack(t, u, b)
    ensures Next(u, hash, To(b), nStakeModifier, fGenerated, picks) ==
            Next(t, hash, To(b), nStakeModifier, fGenerated, picks)
  {
    hide *;
    SameParent(t, u, b);
    LastSame(t, u, b);
    CandidatesSame(t, u, b);
    PicksSame(t, u, hash, t[Last(t, b)].nStakeModifier, Candidates(t, b), Start(t, b), picks);
    NextUnfold(t, hash, b, nStakeModifier, fGenerated, picks);
    NextUnfold(u, hash, b, nStakeModifier, fGenerated, picks);
    StartIs(t, b);
    StartIs(u, b);
  }

  lemma StartIs(t: Tree, b: Id)
    requires b in t
    ensures Start(t, b) == Interval(t[b].nTime) * nModifierInterval - Sections(64)
  {
  }

  lemma NextUnfold(t: Tree, hash: SelectionHash, b: Id, nStakeModifier: nat, fGenerated: bool, picks: seq<nat>)
    requires WellFormed(t) && b in t
    ensures AllIndexed(t, Candidates(t, b))
    ensures var last, v := t[Last(t, b)], Candidates(t, b);
            Next(t, hash, To(b), nStakeModifier, fGenerated, picks) <==>
              (last.fGenerated &&
               if Interval(last.nTime) >= Interval(t[b].nTime) then
                 nStakeModifier == last.nStakeModifier && !fGenerated && picks == []
               else
                 fGenerated && |picks| == Min(64, |v|) && ArePicks(t, hash, last.nStakeModifier, v, Start(t, b), picks)
                 && nStakeModifier == BitSum(t, v, picks))
  {
  }

  // ---------- Chains built by computing and storing ----------

  ghost predicate Stored(t: Tree, hash: SelectionHash, b: Id)
    requires WellFormed(t) && b in t
  {
    && (t[b].pprev.To? ==> t[b].pprev.id in t)
    && exists picks :: Next(t, hash, t[b].pprev, t[b].nStakeModifier, t[b].fGenerated, picks)
  }

  ghost predicate Built(t: Tree, hash: SelectionHash) {
    WellFormed(t) && forall b | b in t :: Stored(t, hash, b)
  }

  lemma EmptyBuilt(hash: SelectionHash)
    ensures Built(map[], hash)
  {
  }

  lemma BuiltParent(t: Tree, hash: SelectionHash, b: Id)
    requires Built(t, hash) && b in t
    ensures t[b].pprev.To? ==> t[b].pprev.id in t && t[t[b].pprev.id].nHeight + 1 == t[b].nHeight
    ensures Stored(t, hash, b)
  {
    assert WellPlaced(t, t[b]);
  }

  /** Genesis generates the modifier 0; any other block stores that of its nearest generating ancestor. */
  lemma {:induction false} StoresLast(t: Tree, hash: SelectionHash, b: Id)
    requires Built(t, hash) && b in t
    ensures t[Last(t, b)].fGenerated && t[b].nStakeModifier == t[Last(t, b)].nStakeModifier
    ensures t[b].pprev == Null ==> t[b].fGenerated && t[b].nStakeModifier == 0
    decreases t[b].nHeight
  {
    BuiltParent(t, hash, b);
    hide WellFormed, Built, Candidates, ArePicks, BitSum, AllIndexed;
    if t[b].pprev.To? {
      StoresLast(t, hash, t[b].pprev.id);
    }
  }

  /** A new block, its modifier computed from its predecessor and stored. Computing it never fails on a tree
      built that way; the hard-coded modifier checkpoints may reject it, and the block stays in the index
      when what follows its insertion, writing to disk and the change of the best chain, fails. */
  method AddToBlockIndex(t: Tree, hash: SelectionHash, id: Id, hashPrevBlock: Id, header: Block,
                         modifierAccepted: bool, written: bool)
    returns (ok: bool, t': Tree)
    requires Built(t, hash)
    ensures Built(t', hash)
    ensures ok <==> id !in t && modifierAccepted && written
    ensures if id !in t && modifierAccepted
            then id in t' && t' == t[id := t'[id]]
                 && t'[id].pprev == (if hashPrevBlock in t then To(hashPrevBlock) else Null)
                 && t'[id] == header.(pprev := t'[id].pprev, nHeight := t'[id].nHeight,
                                      nStakeModifier := t'[id].nStakeModifier, fGenerated := t'[id].fGenerated)
            else t' == t
  {
    hide Built, Next;
    if id in t {
      return false, t;
    }
    BuiltWellFormed(t, hash);
    var pprev := if hashPrevBlock in t then To(hashPrevBlock) else Null;
    var nHeight := if hashPrevBlock in t then t[hashPrevBlock].nHeight + 1 else 0;
    if hashPrevBlock in t {
      StoresLast(t, hash, hashPrevBlock);
    }
    var computed, nStakeModifier, fGenerated, picks := ComputeNextStakeModifier(t, hash, pprev);
    if !computed || !modifierAccepted {
      return false, t;
    }
    var block := header.(pprev := pprev, nHeight := nHeight);
    t' := t[id := block.(nStakeModifier := nStakeModifier, fGenerated := fGenerated)];
    AddedBuilt(t, t', hash, id, picks);
    return written, t';
  }

  lemma BuiltWellFormed(t: Tree, hash: SelectionHash)
    requires Built(t, hash)
    ensures WellFormed(t)
  {
  }

  lemma AddedWellFormed(t: Tree, t': Tree, id: Id)
    requires WellFormed(t) && id !in t && id in t' && t' == t[id := t'[id]] && WellPlaced(t, t'[id])
    ensures WellFormed(t')
  {
    forall b | b in t'
      ensures WellPlaced(t', t'[b])
    {
      if b != id {
        assert WellPlaced(t, t[b]);
      }
    }
  }

  lemma GrownSame(t: Tree, t': Tree, b: Id)
    requires WellFormed(t) && b in t && forall a | a in t :: a in t' && t'[a] == t[a]
    ensures SameBack(t, t', b)
  {
  }

  lemma AddedBuilt(t: Tree, t': Tree, hash: SelectionHash, id: Id, picks: seq<nat>)
    requires Built(t, hash) && WellFormed(t) && id !in t && id in t' && t' == t[id := t'[id]] && WellPlaced(t, t'[id])
    requires t'[id].pprev.To? ==> t'[id].pprev.id in t
    requires Next(t, hash, t'[id].pprev, t'[id].nStakeModifier, t'[id].fGenerated, picks)
    ensures Built(t', hash)
  {
    hide Next, WellFormed;
    AddedWellFormed(t, t', id);
    forall b | b in t'
      ensures Stored(t', hash, b)
    {
      if b == id {
        KeptNext(t, t', hash, id, picks);
      } else {
        BuiltParent(t, hash, b);
        hide Built;
        var stored :| Next(t, hash, t[b].pprev, t[b].nStakeModifier, t[b].fGenerated, stored);
        KeptNext(t, t', hash, b, stored);
      }
    }
  }

  lemma KeptNext(t: Tree, t': Tree, hash: SelectionHash, b: Id, picks: seq<nat>)
    requires WellFormed(t) && WellFormed(t') && b in t' && forall a | a in t :: a in t' && t'[a] == t[a]
    requires t'[b].pprev.To? ==> t'[b].pprev.id in t
    requires Next(t, hash, t'[b].pprev, t'[b].nStakeModifier, t'[b].fGenerated, picks)
    ensures Stored(t', hash, b)
  {
    hide WellFormed;
    if t'[b].pprev.To? {
      var p := t'[b].pprev.id;
      GrownSame(t, t', p);
      DependsOnAncestors(t, t', hash, p, t'[b].nStakeModifier, t'[b].fGenerated, picks);
      hide Next;
    } else {
      NextNull(t, t', hash, t'[b].nStakeModifier, t'[b].fGenerated, picks);
      hide Next;
    }
    assert Next(t', hash, t'[b].pprev, t'[b].nStakeModifier, t'[b].fGenerated, picks);
  }

  lemma NextNull(t: Tree, t': Tree, hash: SelectionHash, m: nat, g: bool, picks: seq<nat>)
    requires WellFormed(t) && WellFormed(t')
    ensures Next(t', hash, Null, m, g, picks) == Next(t, hash, Null, m, g, picks)
  {
  }

  // ---------- Intervals ----------

  /** No block is earlier than its predecessor. */
  ghost predicate TimesUp(t: Tree)
    requires WellFormed(t)
  {
    forall b | b in t && t[b].pprev.To? && t[b].pprev.id in t :: t[t[b].pprev.id].nTime <= t[b].nTime
  }

  /** No generating strict ancestor of b comes after the nearest one. */
  lemma {:induction false} NotAfterLast(t: Tree, hash: SelectionHash, g: Id, b: Id)
    requires Built(t, hash) && WellFormed(t) && TimesUp(t) && IsAncestor(t, g, b) && t[g].fGenerated
    ensures t[g].nTime <= t[Last(t, b)].nTime <= t[b].nTime
    decreases t[b].nHeight
  {
    BuiltParent(t, hash, b);
    hide WellFormed, Built, Stored;
    if t[g].nHeight == t[b].nHeight {
      assert g == b;
    } else {
      var p := t[b].pprev.id;
      StepDown(t, g, b);
      NotAfterLast(t, hash, g, p);
    }
  }

  lemma StepDown(t: Tree, g: Id, b: Id)
    requires WellFormed(t) && IsAncestor(t, g, b) && t[g].nHeight < t[b].nHeight
    ensures t[b].pprev.To? && t[b].pprev.id in t && WellPlaced(t, t[b]) && IsAncestor(t, g, t[b].pprev.id)
  {
    assert WellPlaced(t, t[b]);
  }

  /** Generating blocks of a chain lie in strictly increasing modifier intervals. */
  lemma IntervalsIncrease(t: Tree, hash: SelectionHash, g: Id, b: Id)
    requires Built(t, hash) && WellFormed(t) && TimesUp(t)
    requires IsAncestor(t, g, b) && g != b && t[g].fGenerated && t[b].fGenerated
    ensures Interval(t[g].nTime) < Interval(t[b].nTime)
  {
    hide Built, Stored, Last, WellFormed;
    BuiltParent(t, hash, b);
    HigherThan(t, g, b);
    StepDown(t, g, b);
    NotAfterLast(t, hash, g, t[b].pprev.id);
    GeneratedLater(t, hash, b);
  }

  lemma HigherThan(t: Tree, g: Id, b: Id)
    requires WellFormed(t) && IsAncestor(t, g, b) && g != b
    ensures t[g].nHeight < t[b].nHeight
  {
  }

  /** A modifier is generated only when the last one is from an earlier interval. */
  lemma GeneratedLater(t: Tree, hash: SelectionHash, b: Id)
    requires WellFormed(t) && b in t && Stored(t, hash, b) && t[b].pprev.To? && t[b].fGenerated
    ensures t[b].pprev.id in t && Interval(t[Last(t, t[b].pprev.id)].nTime) < Interval(t[t[b].pprev.id].nTime)
  {
    hide Next, WellFormed, Last;
    var picks :| Next(t, hash, t[b].pprev, t[b].nStakeModifier, t[b].fGenerated, picks);
    NextUnfold(t, hash, t[b].pprev.id, t[b].nStakeModifier, t[b].fGenerated, picks);
  }

  // ---------- The modifier of a kernel ----------

  /** The main chain's block at a height. */
  function MainAt(t: Tree, best: Id, nHeight: nat): (b: Id)
    requires WellFormed(t) && best in t && nHeight <= t[best].nHeight
    ensures b in t && t[b].nHeight == nHeight
  {
    Back(t, best, t[best].nHeight - nHeight)
  }

  /** pnext: the next block of the main chain. */
  function PNext(t: Tree, best: Id, b: Id): Pointer
    requires WellFormed(t) && best in t && b in t
  {
    if IsAncestor(t, b, best) && b != best then To(MainAt(t, best, t[b].nHeight + 1)) else Null
  }

  /** The main chain's block at this height generated a modifier at least a selection interval after from. */
  predicate Qualifies(t: Tree, best: Id, from: Id, nHeight: nat)
    requires WellFormed(t) && best in t && from in t && nHeight <= t[best].nHeight
  {
    var b := t[MainAt(t, best, nHeight)];
    b.fGenerated && b.nTime >= t[from].nTime + Sections(64)
  }

  /** The first one above from, when from is on the main chain. */
  ghost predicate FirstQualifying(t: Tree, best: Id, from: Id, nHeight: nat)
    requires WellFormed(t) && best in t && from in t
  {
    && IsAncestor(t, from, best) && t[from].nHeight < nHeight <= t[best].nHeight && Qualifies(t, best, from, nHeight)
    && (forall h | t[from].nHeight < h < nHeight :: !Qualifies(t, best, from, h))
  }

  /** No block of the main chain between them both generated a modifier and is that late. */
  lemma NoneBefore(t: Tree, best: Id, from: Id, nHeight: nat, h: nat)
    requires WellFormed(t) && best in t && from in t && FirstQualifying(t, best, from, nHeight)
    requires t[from].nHeight < h < nHeight
    ensures h <= t[best].nHeight && var b := t[MainAt(t, best, h)];
            b.fGenerated ==> b.nTime < t[from].nTime + Sections(64)
  {
    hide WellFormed, IsAncestor, MainAt, Sections;
    assert !Qualifies(t, best, from, h);
  }

  method GetKernelStakeModifier(t: Tree, best: Id, hashBlockFrom: Id)
    returns (ok: bool, nStakeModifier: nat, nStakeModifierHeight: nat, nStakeModifierTime: nat)
    requires WellFormed(t) && best in t
    ensures ok <==> hashBlockFrom in t && exists h :: FirstQualifying(t, best, hashBlockFrom, h)
    ensures ok ==>
              var b := nStakeModifierHeight;
              && FirstQualifying(t, best, hashBlockFrom, b)
              && nStakeModifier == t[MainAt(t, best, b)].nStakeModifier
              && nStakeModifierTime == t[MainAt(t, best, b)].nTime
              && t[MainAt(t, best, b)].fGenerated && nStakeModifierTime >= t[hashBlockFrom].nTime + Sections(64)
  {
    hide WellFormed, Sections, IsAncestor;
    nStakeModifier, nStakeModifierHeight, nStakeModifierTime := 0, 0, 0;
    if hashBlockFrom !in t {
      return false, 0, 0, 0;
    }
    var from := hashBlockFrom;
    nStakeModifierHeight := t[from].nHeight;
    nStakeModifierTime := t[from].nTime;
    var nSelectionInterval := GetStakeModifierSelectionInterval();
    var pindex := from;
    while nStakeModifierTime < t[from].nTime + nSelectionInterval
      invariant pindex in t && t[from].nHeight <= t[pindex].nHeight
      invariant pindex == from || (IsAncestor(t, from, best) && t[pindex].nHeight <= t[best].nHeight
              && pindex == MainAt(t, best, t[pindex].nHeight))
      invariant pindex == from ==> nStakeModifierTime == t[from].nTime
      invariant pindex != from ==> forall h | t[from].nHeight < h < t[pindex].nHeight :: !Qualifies(t, best, from, h)
      invariant nStakeModifierTime < t[from].nTime + nSelectionInterval ==>
              pindex == from || !Qualifies(t, best, from, t[pindex].nHeight)
      invariant nStakeModifierTime >= t[from].nTime + nSelectionInterval ==>
                  && FirstQualifying(t, best, from, t[pindex].nHeight)
                  && nStakeModifierHeight == t[pindex].nHeight && nStakeModifierTime == t[pindex].nTime
      decreases t[best].nHeight - t[pindex].nHeight
    {
      var pnext := PNext(t, best, pindex);
      NextOnMain(t, best, from, pindex);
      if pnext == Null {
        return false, 0, 0, 0;
      }
      pindex := pnext.id;
      if t[pindex].fGenerated {
        nStakeModifierHeight := t[pindex].nHeight;
        nStakeModifierTime := t[pindex].nTime;
      }
    }
    nStakeModifier := t[pindex].nStakeModifier;
    ok := true;
  }

  /** Following pnext from a block of the main chain goes up it; it is null only at the best block. */
  lemma NextOnMain(t: Tree, best: Id, from: Id, b: Id)
    requires WellFormed(t) && best in t && from in t && b in t && t[from].nHeight <= t[b].nHeight
    requires b == from || (IsAncestor(t, from, best) && t[b].nHeight <= t[best].nHeight
            && b == MainAt(t, best, t[b].nHeight))
    ensures match PNext(t, best, b)
            case Null => !IsAncestor(t, from, best) || t[b].nHeight == t[best].nHeight
            case To(n) =>
              && IsAncestor(t, from, best) && t[b].nHeight < t[best].nHeight
              && n == MainAt(t, best, t[b].nHeight + 1) && n != from
  {
    hide WellFormed;
    if IsAncestor(t, from, best) {
      BackIsAncestor(t, best, t[best].nHeight - t[b].nHeight);
    }
  }
}

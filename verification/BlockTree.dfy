/** The block index (src/main.h:1073-1190): a tree of blocks, each pointing to its predecessor. */
module BlockTree {

  /** A block hash, as a number. */
  type Id = nat

  type EntropyBit = b: nat | b < 2

  datatype Pointer = Null | To(id: Id)

  datatype Block = Block(
    pprev: Pointer, nHeight: nat, nTime: nat,
    fProofOfStake: bool, nEntropyBit: EntropyBit, hashProof: nat,
    fGenerated: bool, nStakeModifier: nat)

  type Tree = map<Id, Block>

  /** A block has the height after its predecessor's, and only height 0 has none. */
  ghost predicate WellFormed(t: Tree) {
    forall b | b in t :: WellPlaced(t, t[b])
  }

  predicate WellPlaced(t: Tree, block: Block) {
    match block.pprev
    case Null => block.nHeight == 0
    case To(a) => a in t && t[a].nHeight + 1 == block.nHeight
  }

  /** The block n steps back. */
  function Back(t: Tree, b: Id, n: nat): (a: Id)
    requires WellFormed(t) && b in t && n <= t[b].nHeight
    ensures a in t && t[a].nHeight == t[b].nHeight - n
    decreases n
  {
    if n == 0 then b else Back(t, t[b].pprev.id, n - 1)
  }

  lemma {:induction false} BackBack(t: Tree, b: Id, m: nat, n: nat)
    requires WellFormed(t) && b in t && m + n <= t[b].nHeight
    ensures Back(t, Back(t, b, m), n) == Back(t, b, m + n)
    decreases m
  {
    if m != 0 {
      BackBack(t, t[b].pprev.id, m - 1, n);
    }
  }

  lemma BackNext(t: Tree, b: Id, n: nat)
    requires WellFormed(t) && b in t && n <= t[b].nHeight
    ensures var a := t[Back(t, b, n)];
            if n == t[b].nHeight then a.pprev == Null else a.pprev == To(Back(t, b, n + 1))
  {
    if n < t[b].nHeight {
      BackBack(t, b, n, 1);
    }
  }

  /** a is b or one of its predecessors. */
  predicate IsAncestor(t: Tree, a: Id, b: Id)
    requires WellFormed(t)
  {
    a in t && b in t && t[a].nHeight <= t[b].nHeight && Back(t, b, t[b].nHeight - t[a].nHeight) == a
  }

  lemma BackIsAncestor(t: Tree, b: Id, n: nat)
    requires WellFormed(t) && b in t && n <= t[b].nHeight
    ensures IsAncestor(t, Back(t, b, n), b)
  {
  }

  lemma AncestorTransitive(t: Tree, a: Id, b: Id, c: Id)
    requires WellFormed(t) && IsAncestor(t, a, b) && IsAncestor(t, b, c)
    ensures IsAncestor(t, a, c)
  {
    hide WellFormed, Back;
    BackBack(t, c, t[c].nHeight - t[b].nHeight, t[b].nHeight - t[a].nHeight);
  }

  /** The tree with a block more. */
  lemma {:induction false} BackKept(t: Tree, t': Tree, b: Id, n: nat)
    requires WellFormed(t) && WellFormed(t') && b in t && n <= t[b].nHeight
    requires forall a | a in t :: a in t' && t'[a] == t[a]
    ensures Back(t', b, n) == Back(t, b, n)
    decreases n
  {
    if n != 0 {
      BackKept(t, t', t[b].pprev.id, n - 1);
    }
  }
}

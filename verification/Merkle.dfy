/** The Merkle tree of a block (src/main.h:946-994): a flat array of levels, a branch read off it, and
    the check of a branch. The hash of a pair is any function of the two. */
module Merkle {
  import opened Arithmetic
  import opened Sequences

  // ---------- The tree as a recursive definition ----------

  /** The number of nodes k levels above n leaves. */
  function Size(n: nat, k: nat): (s: nat)
    ensures n > 0 ==> s > 0
  {
    if k == 0 then n else (Size(n, k - 1) + 1) / 2
  }

  /** The level of the root. */
  function Depth(n: nat): nat {
    if n <= 1 then 0 else 1 + Depth((n + 1) / 2)
  }

  /** Node i of level k: the hash of its two children, or of the last node with itself. */
  function Node<H>(pair: (H, H) -> H, leaves: seq<H>, k: nat, i: nat): H
    requires i < Size(|leaves|, k)
    decreases k
  {
    if k == 0 then leaves[i]
    else
      var below := Size(|leaves|, k - 1);
      pair(Node(pair, leaves, k - 1, 2 * i), Node(pair, leaves, k - 1, Min(2 * i + 1, below - 1)))
  }

  function Root<H>(pair: (H, H) -> H, leaves: seq<H>): H
    requires leaves != []
  {
    RootAlone(|leaves|);
    Node(pair, leaves, Depth(|leaves|), 0)
  }

  lemma {:induction false} SizeFrom(n: nat, k: nat)
    ensures Size(n, k + 1) == Size((n + 1) / 2, k)
  {
    if k != 0 {
      SizeFrom(n, k - 1);
    }
  }

  lemma {:induction false} RootAlone(n: nat)
    ensures n > 0 ==> Size(n, Depth(n)) == 1
    ensures forall k | 0 <= k < Depth(n) :: Size(n, k) > 1
    ensures n == 0 ==> Depth(n) == 0
    decreases n
  {
    if n > 1 {
      var m := (n + 1) / 2;
      RootAlone(m);
      SizeFrom(n, Depth(m));
      forall k | 0 <= k < Depth(n)
        ensures Size(n, k) > 1
      {
        if k != 0 {
          SizeFrom(n, k - 1);
        }
      }
    }
  }

  /** The roots of the smallest lists. */
  lemma SmallRoots<H>(pair: (H, H) -> H, a: H, b: H, c: H)
    ensures Root(pair, [a]) == a && Root(pair, [a, b]) == pair(a, b)
    ensures Root(pair, [a, b, c]) == pair(pair(a, b), pair(c, c))
  {
    assert Size(1, 0) == 1 && Size(2, 1) == 1 && Size(3, 0) == 3 && Size(3, 1) == 2 && Size(3, 2) == 1;
    assert Depth(1) == 0 && Depth(2) == 1 && Depth(3) == 2;
    assert Node(pair, [a, b, c], 1, 0) == pair(a, b) && Node(pair, [a, b, c], 1, 1) == pair(c, c);
  }

  // ---------- Branches ----------

  /** nIndex ^ 1. */
  function Other(i: nat): nat {
    if i % 2 == 0 then i + 1 else i - 1
  }

  /** nIndex >> k. */
  function Up(i: nat, k: nat): nat {
    if k == 0 then i else Up(i, k - 1) / 2
  }

  function Branch<H>(pair: (H, H) -> H, leaves: seq<H>, i: nat, k: nat): (b: seq<H>)
    requires leaves != []
    ensures |b| == k
  {
    if k == 0 then []
    else
      var other := Min(Other(Up(i, k - 1)), Size(|leaves|, k - 1) - 1);
      Branch(pair, leaves, i, k - 1) + [Node(pair, leaves, k - 1, other)]
  }

  /** What hashing up a branch gives; shifting and masking a negative index round down. */
  function Fold<H>(pair: (H, H) -> H, hash: H, branch: seq<H>, i: int): H
    decreases |branch|
  {
    if branch == [] then hash
    else Fold(pair, if i % 2 == 1 then pair(branch[0], hash) else pair(hash, branch[0]), branch[1..], i / 2)
  }

  lemma {:induction false} UpInLevel(n: nat, i: nat, k: nat)
    requires i < n
    ensures Up(i, k) < Size(n, k)
  {
    if k != 0 {
      UpInLevel(n, i, k - 1);
    }
  }

  lemma {:induction false} FoldLast<H>(pair: (H, H) -> H, hash: H, branch: seq<H>, i: nat, k: nat)
    requires |branch| == k + 1
    ensures var h := Fold(pair, hash, branch[..k], i);
            Fold(pair, hash, branch, i) == if Up(i, k) % 2 == 1 then pair(branch[k], h) else pair(h, branch[k])
  {
    if k != 0 {
      var next := if i % 2 == 1 then pair(branch[0], hash) else pair(hash, branch[0]);
      FoldLast(pair, next, branch[1..], i / 2, k - 1);
      UpFrom(i, k - 1);
      assert branch[..k][1..] == branch[1..][..k - 1];
    } else {
      assert branch[1..] == [];
      assert Fold(pair, hash, branch[..0], i) == hash;
    }
  }

  lemma {:induction false} UpFrom(i: nat, k: nat)
    ensures Up(i, k + 1) == Up(i / 2, k)
  {
    if k != 0 {
      UpFrom(i, k - 1);
    }
  }

  /** The entry of the branch at level k: the sibling, or the node itself when it is the last. */
  function Sibling<H>(pair: (H, H) -> H, leaves: seq<H>, i: nat, k: nat): H
    requires leaves != []
  {
    Node(pair, leaves, k, Min(Other(Up(i, k)), Size(|leaves|, k) - 1))
  }

  lemma BranchLast<H>(pair: (H, H) -> H, leaves: seq<H>, i: nat, k: nat)
    requires leaves != []
    ensures var b := Branch(pair, leaves, i, k + 1);
            b[..k] == Branch(pair, leaves, i, k) && b[k] == Sibling(pair, leaves, i, k)
  {
    hide Node, Up, Other, Size;
  }

  lemma Parent<H>(pair: (H, H) -> H, leaves: seq<H>, i: nat, k: nat)
    requires i < |leaves|
    ensures Up(i, k) < Size(|leaves|, k) && Up(i, k + 1) < Size(|leaves|, k + 1)
    ensures var h, s := Node(pair, leaves, k, Up(i, k)), Sibling(pair, leaves, i, k);
            Node(pair, leaves, k + 1, Up(i, k + 1)) == if Up(i, k) % 2 == 1 then pair(s, h) else pair(h, s)
  {
    UpInLevel(|leaves|, i, k);
    UpInLevel(|leaves|, i, k + 1);
    assert Up(i, k + 1) == Up(i, k) / 2;
    hide Up, Size;
  }

  /** Going up the first k entries of a leaf's branch leads to its ancestor at level k. */
  lemma {:induction false} BranchClimbs<H>(pair: (H, H) -> H, leaves: seq<H>, i: nat, k: nat)
    requires i < |leaves|
    ensures Up(i, k) < Size(|leaves|, k)
    ensures Fold(pair, leaves[i], Branch(pair, leaves, i, k), i) == Node(pair, leaves, k, Up(i, k))
  {
    if k != 0 {
      hide Fold, Branch, Node, Up, Size, Sibling;
      BranchClimbs(pair, leaves, i, k - 1);
      FoldLast(pair, leaves[i], Branch(pair, leaves, i, k), i, k - 1);
      BranchLast(pair, leaves, i, k - 1);
      Parent(pair, leaves, i, k - 1);
    }
  }

  /** The branch of a leaf verifies against the root. */
  lemma BranchVerifies<H>(pair: (H, H) -> H, leaves: seq<H>, i: nat)
    requires i < |leaves|
    ensures Fold(pair, leaves[i], Branch(pair, leaves, i, Depth(|leaves|)), i) == Root(pair, leaves)
  {
    hide Fold, Branch, Node, Up, Size, Depth;
    BranchClimbs(pair, leaves, i, Depth(|leaves|));
    RootAlone(|leaves|);
  }

  ghost predicate Injective<H(!new)>(pair: (H, H) -> H) {
    forall a, b, c, d :: pair(a, b) == pair(c, d) ==> a == c && b == d
  }

  lemma {:induction false} OnlyClimb<H(!new)>(pair: (H, H) -> H, leaves: seq<H>, i: nat, k: nat, hash: H,
                                              branch: seq<H>)
    requires Injective(pair) && i < |leaves| && |branch| == k && Up(i, k) < Size(|leaves|, k)
    requires Fold(pair, hash, branch, i) == Node(pair, leaves, k, Up(i, k))
    ensures hash == leaves[i] && branch == Branch(pair, leaves, i, k)
  {
    if k != 0 {
      hide Fold, Branch, Node, Up, Size, Sibling;
      FoldLast(pair, hash, branch, i, k - 1);
      Parent(pair, leaves, i, k - 1);
      OnlyClimb(pair, leaves, i, k - 1, hash, branch[..k - 1]);
      BranchLast(pair, leaves, i, k - 1);
    }
  }

  /** Whatever verifies at i, with a branch of the right length, is leaf i with its own branch. */
  lemma OnlyLeafVerifies<H(!new)>(pair: (H, H) -> H, leaves: seq<H>, i: nat, hash: H, branch: seq<H>)
    requires Injective(pair) && i < |leaves| && |branch| == Depth(|leaves|)
    ensures Fold(pair, hash, branch, i) == Root(pair, leaves) <==>
            hash == leaves[i] && branch == Branch(pair, leaves, i, Depth(|leaves|))
  {
    hide Fold, Branch, Node, Up, Size, Depth, Injective;
    UpInLevel(|leaves|, i, Depth(|leaves|));
    RootAlone(|leaves|);
    BranchVerifies(pair, leaves, i);
    if Fold(pair, hash, branch, i) == Root(pair, leaves) {
      OnlyClimb(pair, leaves, i, Depth(|leaves|), hash, branch);
    }
  }

  /** Two lists of one length have the same root exactly when they are the same list. */
  lemma RootDeterminesLeaves<H(!new)>(pair: (H, H) -> H, a: seq<H>, b: seq<H>)
    requires Injective(pair) && |a| == |b| && a != []
    ensures Root(pair, a) == Root(pair, b) <==> a == b
  {
    if Root(pair, a) == Root(pair, b) {
      forall i | 0 <= i < |a|
        ensures a[i] == b[i]
      {
        BranchVerifies(pair, a, i);
        OnlyLeafVerifies(pair, b, i, a[i], Branch(pair, a, i, Depth(|a|)));
      }
    }
  }

  lemma {:induction false} SameAbove<H>(pair: (H, H) -> H, leaves: seq<H>, k: nat, i: nat)
    requires |leaves| % 2 == 1
    requires k > 0 && i < Size(|leaves|, k)
    ensures var twice := leaves + [leaves[|leaves| - 1]];
            Size(|twice|, k) == Size(|leaves|, k) && Node(pair, twice, k, i) == Node(pair, leaves, k, i)
    decreases k
  {
    if k > 1 {
      SameAbove(pair, leaves, k - 1, 2 * i);
      SameAbove(pair, leaves, k - 1, Min(2 * i + 1, Size(|leaves|, k - 1) - 1));
    } else {
      var n, twice := |leaves|, leaves + [leaves[|leaves| - 1]];
      assert Size(n, 0) == n && Size(n + 1, 0) == n + 1;
      assert Node(pair, twice, 0, 2 * i) == Node(pair, leaves, 0, 2 * i);
    }
  }

  /** The length matters: an odd list and the same list with its last leaf repeated share a root. */
  lemma RepeatedLastLeaf<H>(pair: (H, H) -> H, leaves: seq<H>)
    requires |leaves| % 2 == 1 && |leaves| > 1
    ensures Root(pair, leaves + [leaves[|leaves| - 1]]) == Root(pair, leaves)
  {
    RootAlone(|leaves|);
    SameAbove(pair, leaves, Depth(|leaves|), 0);
  }

  /** The hash of x with itself, k times over. */
  function Doubled<H>(pair: (H, H) -> H, x: H, k: nat): H {
    if k == 0 then x else pair(Doubled(pair, x, k - 1), Doubled(pair, x, k - 1))
  }

  lemma {:induction false} RepeatNode<H>(pair: (H, H) -> H, x: H, n: nat, k: nat, i: nat)
    requires i < Size(n, k)
    ensures Node(pair, Repeat(x, n), k, i) == Doubled(pair, x, k)
    decreases k
  {
    if k > 0 {
      ChildrenOf(pair, Repeat(x, n), k - 1, i);
      RepeatNode(pair, x, n, k - 1, 2 * i);
      RepeatNode(pair, x, n, k - 1, Min(2 * i + 1, Size(n, k - 1) - 1));
    }
  }

  lemma RepeatRoot<H>(pair: (H, H) -> H, x: H, n: nat)
    requires n > 0
    ensures Root(pair, Repeat(x, n)) == Doubled(pair, x, Depth(n))
  {
    RootAlone(n);
    RepeatNode(pair, x, n, Depth(n), 0);
  }

  lemma {:induction false} DoubledTwice<H>(pair: (H, H) -> H, x: H, j: nat, k: nat)
    ensures Doubled(pair, Doubled(pair, x, j), k) == Doubled(pair, x, j + k)
  {
    if k != 0 {
      DoubledTwice(pair, x, j, k - 1);
    }
  }

  /** Whatever two lengths are given, some lists of those lengths share a root. */
  lemma SomeShareRoot<H>(pair: (H, H) -> H, x: H, n: nat, m: nat) returns (a: seq<H>, b: seq<H>)
    requires n > 0 && m > 0
    ensures |a| == n && |b| == m && Root(pair, a) == Root(pair, b)
  {
    var j, k := Depth(n), Depth(m);
    a := Repeat(if j < k then Doubled(pair, x, k - j) else x, n);
    b := Repeat(if k < j then Doubled(pair, x, j - k) else x, m);
    RepeatRoot(pair, if j < k then Doubled(pair, x, k - j) else x, n);
    RepeatRoot(pair, if k < j then Doubled(pair, x, j - k) else x, m);
    DoubledTwice(pair, x, if j < k then k - j else 0, j);
    DoubledTwice(pair, x, if k < j then j - k else 0, k);
  }

  /** For lists of given lengths the root fixes the leaves exactly when the lengths are equal. */
  lemma RootFixesLeavesWhen<H(!new,00)>(pair: (H, H) -> H, n: nat, m: nat)
    requires Injective(pair) && n > 0 && m > 0
    ensures n == m <==>
            forall a: seq<H>, b: seq<H> | |a| == n && |b| == m && Root(pair, a) == Root(pair, b) :: a == b
  {
    hide Injective, Root;
    if n == m {
      forall a: seq<H>, b: seq<H> | |a| == n && |b| == m && Root(pair, a) == Root(pair, b)
        ensures a == b
      {
        RootDeterminesLeaves(pair, a, b);
      }
    } else {
      var x: H :| true;
      var a, b := SomeShareRoot(pair, x, n, m);
      assert a != b;
    }
  }

  // ---------- Lists with a common root ----------

  /** The node of level e at the end of a path down from node i, left or right at every level: the last
      node of a level stands in for one that is missing. */
  function Under(n: nat, e: nat, i: nat, path: seq<bool>): (j: nat)
    requires i < Size(n, e + |path|)
    ensures j < Size(n, e)
    decreases |path|
  {
    if path == [] then i
    else Under(n, e, if path[0] then Min(2 * i + 1, Size(n, e + |path| - 1) - 1) else 2 * i, path[1..])
  }

  /** At the end of every path from those nodes there are a leaf of a and an equal node of level e of b. */
  ghost predicate Alike<H(!new)>(pair: (H, H) -> H, a: seq<H>, i: nat, b: seq<H>, j: nat, e: nat, k: nat)
    requires i < Size(|a|, k) && j < Size(|b|, e + k)
  {
    forall path: seq<bool> | |path| == k ::
      a[Under(|a|, 0, i, path)] == Node(pair, b, e, Under(|b|, e, j, path))
  }

  lemma ChildrenIn(n: nat, k: nat, i: nat)
    requires i < Size(n, k + 1)
    ensures 2 * i < Size(n, k) && 0 <= Min(2 * i + 1, Size(n, k) - 1) < Size(n, k)
  {
    LevelAbove(n, k);
    hide Size;
  }

  lemma LeafLevel(n: nat)
    ensures Size(n, 0) == n
  {
  }

  lemma UnderStep(n: nat, e: nat, i: nat, path: seq<bool>, first: bool)
    requires i < Size(n, e + |path| + 1)
    ensures 2 * i < Size(n, e + |path|) && 0 <= Min(2 * i + 1, Size(n, e + |path|) - 1) < Size(n, e + |path|)
    ensures Under(n, e, i, [first] + path) ==
            Under(n, e, if first then Min(2 * i + 1, Size(n, e + |path|) - 1) else 2 * i, path)
  {
    ChildrenIn(n, e + |path|, i);
    hide Size, Min;
    assert ([first] + path)[1..] == path;
  }

  lemma AlikeBelow<H(!new)>(pair: (H, H) -> H, a: seq<H>, i: nat, b: seq<H>, j: nat, e: nat, k: nat)
    requires i < Size(|a|, k + 1) && j < Size(|b|, e + k + 1) && Alike(pair, a, i, b, j, e, k + 1)
    requires 2 * i < Size(|a|, k) && 2 * j < Size(|b|, e + k)
    ensures Alike(pair, a, 2 * i, b, 2 * j, e, k)
    ensures Alike(pair, a, Min(2 * i + 1, Size(|a|, k) - 1), b, Min(2 * j + 1, Size(|b|, e + k) - 1), e, k)
  {
    hide Node, Under, Size, Min;
    LeafLevel(|a|);
    ChildrenIn(|a|, k, i);
    ChildrenIn(|b|, e + k, j);
    var i2, j2 := Min(2 * i + 1, Size(|a|, k) - 1), Min(2 * j + 1, Size(|b|, e + k) - 1);
    forall path: seq<bool> | |path| == k
      ensures a[Under(|a|, 0, 2 * i, path)] == Node(pair, b, e, Under(|b|, e, 2 * j, path))
      ensures a[Under(|a|, 0, i2, path)] == Node(pair, b, e, Under(|b|, e, j2, path))
    {
      UnderStep(|a|, 0, i, path, false);
      UnderStep(|a|, 0, i, path, true);
      UnderStep(|b|, e, j, path, false);
      UnderStep(|b|, e, j, path, true);
      assert a[Under(|a|, 0, i, [false] + path)] == Node(pair, b, e, Under(|b|, e, j, [false] + path));
      assert a[Under(|a|, 0, i, [true] + path)] == Node(pair, b, e, Under(|b|, e, j, [true] + path));
    }
  }

  lemma AlikeAbove<H(!new)>(pair: (H, H) -> H, a: seq<H>, i: nat, b: seq<H>, j: nat, e: nat, k: nat)
    requires i < Size(|a|, k + 1) && j < Size(|b|, e + k + 1)
    requires 2 * i < Size(|a|, k) && 2 * j < Size(|b|, e + k)
    requires Alike(pair, a, 2 * i, b, 2 * j, e, k)
    requires Alike(pair, a, Min(2 * i + 1, Size(|a|, k) - 1), b, Min(2 * j + 1, Size(|b|, e + k) - 1), e, k)
    ensures Alike(pair, a, i, b, j, e, k + 1)
  {
    hide Node, Under, Size, Min;
    LeafLevel(|a|);
    ChildrenIn(|a|, k, i);
    ChildrenIn(|b|, e + k, j);
    var i2, j2 := Min(2 * i + 1, Size(|a|, k) - 1), Min(2 * j + 1, Size(|b|, e + k) - 1);
    forall path: seq<bool> | |path| == k + 1
      ensures a[Under(|a|, 0, i, path)] == Node(pair, b, e, Under(|b|, e, j, path))
    {
      var rest := path[1..];
      assert path == [path[0]] + rest;
      UnderStep(|a|, 0, i, rest, path[0]);
      UnderStep(|b|, e, j, rest, path[0]);
      if path[0] {
        assert a[Under(|a|, 0, i2, rest)] == Node(pair, b, e, Under(|b|, e, j2, rest));
      } else {
        assert a[Under(|a|, 0, 2 * i, rest)] == Node(pair, b, e, Under(|b|, e, 2 * j, rest));
      }
    }
  }

  lemma SamePair<H(!new)>(pair: (H, H) -> H, a: H, b: H, c: H, d: H)
    requires Injective(pair)
    ensures pair(a, b) == pair(c, d) <==> a == c && b == d
  {
  }

  lemma SameLeafWhen<H(!new)>(pair: (H, H) -> H, a: seq<H>, i: nat, b: seq<H>, j: nat, e: nat)
    requires i < Size(|a|, 0) && j < Size(|b|, e)
    ensures Node(pair, a, 0, i) == Node(pair, b, e, j) <==> Alike(pair, a, i, b, j, e, 0)
  {
    assert Under(|a|, 0, i, []) == i && Under(|b|, e, j, []) == j;
    assert Node(pair, a, 0, i) == a[i];
  }

  lemma {:induction false} SameNodeWhen<H(!new)>(pair: (H, H) -> H, a: seq<H>, i: nat, b: seq<H>, j: nat, e: nat,
                                                 k: nat)
    requires Injective(pair) && i < Size(|a|, k) && j < Size(|b|, e + k)
    ensures Node(pair, a, k, i) == Node(pair, b, e + k, j) <==> Alike(pair, a, i, b, j, e, k)
    decreases k
  {
    hide *;
    if k == 0 {
      SameLeafWhen(pair, a, i, b, j, e);
    } else {
      ChildrenIn(|a|, k - 1, i);
      ChildrenIn(|b|, e + k - 1, j);
      SameNodeWhen(pair, a, 2 * i, b, 2 * j, e, k - 1);
      SameNodeWhen(pair, a, Min(2 * i + 1, Size(|a|, k - 1) - 1), b, Min(2 * j + 1, Size(|b|, e + k - 1) - 1), e,
                   k - 1);
      SameNodeStep(pair, a, i, b, j, e, k - 1);
    }
  }

  lemma SameNodeStep<H(!new)>(pair: (H, H) -> H, a: seq<H>, i: nat, b: seq<H>, j: nat, e: nat, k: nat)
    requires Injective(pair) && i < Size(|a|, k + 1) && j < Size(|b|, e + k + 1)
    requires 2 * i < Size(|a|, k) && 2 * j < Size(|b|, e + k)
    requires Node(pair, a, k, 2 * i) == Node(pair, b, e + k, 2 * j) <==> Alike(pair, a, 2 * i, b, 2 * j, e, k)
    requires var i2, j2 := Min(2 * i + 1, Size(|a|, k) - 1), Min(2 * j + 1, Size(|b|, e + k) - 1);
             Node(pair, a, k, i2) == Node(pair, b, e + k, j2) <==> Alike(pair, a, i2, b, j2, e, k)
    ensures Node(pair, a, k + 1, i) == Node(pair, b, e + k + 1, j) <==> Alike(pair, a, i, b, j, e, k + 1)
  {
    hide *;
    ChildrenIn(|a|, k, i);
    ChildrenIn(|b|, e + k, j);
    ChildrenOf(pair, a, k, i);
    ChildrenOf(pair, b, e + k, j);
    var i2, j2 := Min(2 * i + 1, Size(|a|, k) - 1), Min(2 * j + 1, Size(|b|, e + k) - 1);
    SamePair(pair, Node(pair, a, k, 2 * i), Node(pair, a, k, i2), Node(pair, b, e + k, 2 * j),
             Node(pair, b, e + k, j2));
    if Alike(pair, a, i, b, j, e, k + 1) {
      AlikeBelow(pair, a, i, b, j, e, k);
    } else if Alike(pair, a, 2 * i, b, 2 * j, e, k) && Alike(pair, a, i2, b, j2, e, k) {
      AlikeAbove(pair, a, i, b, j, e, k);
    }
  }

  /** Two lists, the first with a tree no deeper than the second, have the same root exactly when, with
      every missing node filled in by the last of its level, the leaves of the first are the nodes of the
      second as far below the root; so 6 leaves and the same with the last two repeated share a root. */
  lemma SameRootWhen<H(!new)>(pair: (H, H) -> H, a: seq<H>, b: seq<H>)
    requires Injective(pair) && a != [] && b != [] && Depth(|a|) <= Depth(|b|)
    ensures Size(|a|, Depth(|a|)) == 1 && Size(|b|, Depth(|b|)) == 1
    ensures Root(pair, a) == Root(pair, b) <==> Alike(pair, a, 0, b, 0, Depth(|b|) - Depth(|a|), Depth(|a|))
  {
    hide Injective, Alike, Node;
    RootAlone(|a|);
    RootAlone(|b|);
    SameNodeWhen(pair, a, 0, b, 0, Depth(|b|) - Depth(|a|), Depth(|a|));
  }

  // ---------- The flat array ----------

  /** Where level k starts. */
  function Start(n: nat, k: nat): nat {
    if k == 0 then 0 else Start(n, k - 1) + Size(n, k - 1)
  }

  /** The first i nodes of level k are where they belong. */
  ghost predicate HasLevel<H>(pair: (H, H) -> H, leaves: seq<H>, tree: seq<H>, k: nat, i: nat) {
    && i <= Size(|leaves|, k) && Start(|leaves|, k) + i <= |tree|
    && (forall m | 0 <= m < i :: tree[Start(|leaves|, k) + m] == Node(pair, leaves, k, m))
  }

  /** The array holds k whole levels and i nodes of the next, one after the other. */
  ghost predicate IsFlat<H>(pair: (H, H) -> H, leaves: seq<H>, tree: seq<H>, k: nat, i: nat) {
    && |tree| == Start(|leaves|, k) + i
    && (forall l | 0 <= l < k :: HasLevel(pair, leaves, tree, l, Size(|leaves|, l)))
    && HasLevel(pair, leaves, tree, k, i)
  }

  lemma FlatNode<H>(pair: (H, H) -> H, leaves: seq<H>, tree: seq<H>, k: nat, i: nat)
    requires IsFlat(pair, leaves, tree, k, i) && i < Size(|leaves|, k)
    ensures IsFlat(pair, leaves, tree + [Node(pair, leaves, k, i)], k, i + 1)
  {
    hide Node, Size, Start;
    var longer := tree + [Node(pair, leaves, k, i)];
    forall l | 0 <= l < k
      ensures HasLevel(pair, leaves, longer, l, Size(|leaves|, l))
    {
      assert HasLevel(pair, leaves, tree, l, Size(|leaves|, l));
    }
  }

  lemma FlatLevel<H>(pair: (H, H) -> H, leaves: seq<H>, tree: seq<H>, k: nat)
    requires IsFlat(pair, leaves, tree, k, Size(|leaves|, k))
    ensures IsFlat(pair, leaves, tree, k + 1, 0)
  {
    hide *;
    LevelAbove(|leaves|, k);
    LevelsOf(pair, leaves, tree, k, Size(|leaves|, k));
    NoneYet(pair, leaves, tree, k + 1);
    FlatFrom(pair, leaves, tree, k + 1);
  }

  lemma LevelsOf<H>(pair: (H, H) -> H, leaves: seq<H>, tree: seq<H>, k: nat, i: nat)
    requires IsFlat(pair, leaves, tree, k, i)
    ensures i <= Size(|leaves|, k) && |tree| == Start(|leaves|, k) + i && HasLevel(pair, leaves, tree, k, i)
    ensures forall l | 0 <= l < k :: HasLevel(pair, leaves, tree, l, Size(|leaves|, l))
  {
    hide Start, Size, Node;
  }

  lemma NoneYet<H>(pair: (H, H) -> H, leaves: seq<H>, tree: seq<H>, k: nat)
    requires Start(|leaves|, k) <= |tree|
    ensures HasLevel(pair, leaves, tree, k, 0)
  {
    hide Start, Size, Node;
  }

  lemma FlatFrom<H>(pair: (H, H) -> H, leaves: seq<H>, tree: seq<H>, k: nat)
    requires |tree| == Start(|leaves|, k) && HasLevel(pair, leaves, tree, k, 0)
    requires forall l | 0 <= l < k :: HasLevel(pair, leaves, tree, l, Size(|leaves|, l))
    ensures IsFlat(pair, leaves, tree, k, 0)
  {
    hide HasLevel, Start, Size;
  }

  lemma NodeAt<H>(pair: (H, H) -> H, leaves: seq<H>, tree: seq<H>, k: nat, i: nat, m: nat)
    requires HasLevel(pair, leaves, tree, k, i) && m < i
    ensures m < Size(|leaves|, k) && Start(|leaves|, k) + m < |tree|
    ensures tree[Start(|leaves|, k) + m] == Node(pair, leaves, k, m)
  {
    hide Start, Size, Node;
  }

  class Block<H(==)> {
    const pair: (H, H) -> H
    const zero: H
    /** The hashes of the transactions. */
    var vtx: seq<H>
    var vMerkleTree: seq<H>

    /** The cached tree, when there is one, is that of the transactions. */
    ghost predicate Valid()
      reads this
    {
      vMerkleTree == [] || IsTree()
    }

    ghost predicate IsTree()
      reads this
    {
      vtx != [] && IsFlat(pair, vtx, vMerkleTree, Depth(|vtx|), 1)
    }

    constructor (pair: (H, H) -> H, zero: H, vtx: seq<H>)
      ensures this.pair == pair && this.zero == zero && this.vtx == vtx && vMerkleTree == [] && Valid()
    {
      this.pair, this.zero, this.vtx, vMerkleTree := pair, zero, vtx, [];
    }

    method BuildMerkleTree() returns (root: H)
      modifies this`vMerkleTree
      ensures if vtx == [] then root == zero && vMerkleTree == [] else root == Root(pair, vtx) && IsTree()
    {
      hide Node, Size, Depth, Start, IsFlat;
      vMerkleTree := [];
      var t := 0;
      StartFlat(pair, vtx);
      while t < |vtx|
        invariant t <= |vtx| == Size(|vtx|, 0) && IsFlat(pair, vtx, vMerkleTree, 0, t)
      {
        FlatNode(pair, vtx, vMerkleTree, 0, t);
        LeafIs(pair, vtx, t);
        vMerkleTree := vMerkleTree + [vtx[t]];
        t := t + 1;
      }
      var j := 0;
      var nSize := |vtx|;
      ghost var k := 0;
      while nSize > 1
        invariant nSize == Size(|vtx|, k) && j == Start(|vtx|, k)
        invariant forall l | 0 <= l < k :: Size(|vtx|, l) > 1
        invariant IsFlat(pair, vtx, vMerkleTree, k, nSize)
      {
        LevelAbove(|vtx|, k);
        FlatLevel(pair, vtx, vMerkleTree, k);
        BuildLevel(j, nSize, k);
        j := j + nSize;
        nSize := (nSize + 1) / 2;
        k := k + 1;
      }
      TopLevel(pair, vtx, vMerkleTree, k);
      root := if vMerkleTree == [] then zero else vMerkleTree[|vMerkleTree| - 1];
    }

    /** One turn of the outer loop: the level above the one at j. */
    method BuildLevel(j: nat, nSize: nat, ghost k: nat)
      requires nSize > 1 && nSize == Size(|vtx|, k) && j == Start(|vtx|, k)
      requires IsFlat(pair, vtx, vMerkleTree, k + 1, 0)
      modifies this`vMerkleTree
      ensures Size(|vtx|, k + 1) == (nSize + 1) / 2
      ensures IsFlat(pair, vtx, vMerkleTree, k + 1, (nSize + 1) / 2)
    {
      hide Node, Size, Start, IsFlat;
      LevelAbove(|vtx|, k);
      var i := 0;
      while i < nSize
        invariant i <= nSize + 1 && i % 2 == 0
        invariant IsFlat(pair, vtx, vMerkleTree, k + 1, i / 2)
      {
        var i2 := Min(i + 1, nSize - 1);
        Children(pair, vtx, vMerkleTree, k, i / 2);
        FlatNode(pair, vtx, vMerkleTree, k + 1, i / 2);
        vMerkleTree := vMerkleTree + [pair(vMerkleTree[j + i], vMerkleTree[j + i2])];
        i := i + 2;
      }
    }

    /** The branch of a transaction; the tree is built when there is none yet. */
    method GetMerkleBranch(nIndex: nat) returns (vMerkleBranch: seq<H>)
      requires Valid() && nIndex < |vtx|
      modifies this`vMerkleTree
      ensures IsTree() && vMerkleBranch == Branch(pair, vtx, nIndex, Depth(|vtx|))
    {
      hide Node, Size, Depth, Start, IsFlat, Branch, Up;
      if vMerkleTree == [] {
        var _ := BuildMerkleTree();
      }
      vMerkleBranch := [];
      RootAlone(|vtx|);
      StartBranch(pair, vtx, nIndex);
      var j := 0;
      var index := nIndex;
      var nSize := |vtx|;
      ghost var k := 0;
      while nSize > 1
        invariant nSize == Size(|vtx|, k) && j == Start(|vtx|, k) && index == Up(nIndex, k)
        invariant forall l | 0 <= l < k :: Size(|vtx|, l) > 1
        invariant IsTree() && k <= Depth(|vtx|) && vMerkleBranch == Branch(pair, vtx, nIndex, k)
      {
        LevelAbove(|vtx|, k);
        BranchStep(pair, vtx, vMerkleTree, nIndex, k);
        var i := Min(Other(index), nSize - 1);
        vMerkleBranch := vMerkleBranch + [vMerkleTree[j + i]];
        index := index / 2;
        j := j + nSize;
        nSize := (nSize + 1) / 2;
        k := k + 1;
      }
    }
  }

  /** The check of a branch: -1 stands for a transaction that is not in any block. */
  method CheckMerkleBranch<H>(pair: (H, H) -> H, zero: H, hash: H, vMerkleBranch: seq<H>, nIndex: int) returns (r: H)
    ensures r == if nIndex == -1 then zero else Fold(pair, hash, vMerkleBranch, nIndex)
  {
    if nIndex == -1 {
      return zero;
    }
    r := hash;
    var index := nIndex;
    var n := 0;
    while n < |vMerkleBranch|
      invariant n <= |vMerkleBranch|
      invariant Fold(pair, r, vMerkleBranch[n..], index) == Fold(pair, hash, vMerkleBranch, nIndex)
    {
      var otherside := vMerkleBranch[n];
      assert vMerkleBranch[n..][1..] == vMerkleBranch[n + 1..];
      if index % 2 == 1 {
        r := pair(otherside, r);
      } else {
        r := pair(r, otherside);
      }
      index := index / 2;
      n := n + 1;
    }
  }

  lemma StartBranch<H>(pair: (H, H) -> H, leaves: seq<H>, i: nat)
    requires leaves != []
    ensures Branch(pair, leaves, i, 0) == [] && Up(i, 0) == i
    ensures Size(|leaves|, 0) == |leaves| && Start(|leaves|, 0) == 0
  {
  }

  lemma BranchStep<H>(pair: (H, H) -> H, leaves: seq<H>, tree: seq<H>, i: nat, k: nat)
    requires leaves != [] && k <= Depth(|leaves|) && Size(|leaves|, k) > 1
    requires IsFlat(pair, leaves, tree, Depth(|leaves|), 1)
    ensures k < Depth(|leaves|) && Up(i, k + 1) == Up(i, k) / 2
    ensures var m := Start(|leaves|, k) + Min(Other(Up(i, k)), Size(|leaves|, k) - 1);
            m < |tree| && Branch(pair, leaves, i, k + 1) == Branch(pair, leaves, i, k) + [tree[m]]
  {
    hide *;
    RootAlone(|leaves|);
    UpHalf(i, k);
    BranchLast(pair, leaves, i, k);
    var m := Min(Other(Up(i, k)), Size(|leaves|, k) - 1);
    SiblingIndex(Up(i, k), Size(|leaves|, k));
    SiblingIs(pair, leaves, i, k);
    LevelsOf(pair, leaves, tree, Depth(|leaves|), 1);
    NodeAt(pair, leaves, tree, k, Size(|leaves|, k), m);
    var b := Branch(pair, leaves, i, k + 1);
    assert b == b[..k] + [b[k]];
  }

  lemma SiblingIndex(u: nat, size: nat)
    requires size > 0
    ensures 0 <= Min(Other(u), size - 1) < size
  {
  }

  lemma SiblingIs<H>(pair: (H, H) -> H, leaves: seq<H>, i: nat, k: nat)
    requires leaves != []
    ensures 0 <= Min(Other(Up(i, k)), Size(|leaves|, k) - 1) < Size(|leaves|, k)
    ensures Sibling(pair, leaves, i, k) == Node(pair, leaves, k, Min(Other(Up(i, k)), Size(|leaves|, k) - 1))
  {
    hide Node, Size, Up;
  }

  lemma UpHalf(i: nat, k: nat)
    ensures Up(i, k + 1) == Up(i, k) / 2
  {
  }

  /** Building, extracting and checking together. */
  method ProveInclusion<H>(block: Block<H>, nIndex: nat) returns (root: H, checked: H)
    requires nIndex < |block.vtx|
    modifies block
    ensures nIndex < |block.vtx| && checked == root == Root(block.pair, block.vtx)
  {
    root := block.BuildMerkleTree();
    var vMerkleBranch := block.GetMerkleBranch(nIndex);
    checked := CheckMerkleBranch(block.pair, block.zero, block.vtx[nIndex], vMerkleBranch, nIndex);
    BranchVerifies(block.pair, block.vtx, nIndex);
  }

  lemma StartFlat<H>(pair: (H, H) -> H, leaves: seq<H>)
    ensures IsFlat(pair, leaves, [], 0, 0) && Size(|leaves|, 0) == |leaves| && Start(|leaves|, 0) == 0
  {
  }

  lemma LeafIs<H>(pair: (H, H) -> H, leaves: seq<H>, t: nat)
    requires t < |leaves| == Size(|leaves|, 0)
    ensures Node(pair, leaves, 0, t) == leaves[t]
  {
  }

  lemma LevelAbove(n: nat, k: nat)
    ensures Size(n, k + 1) == (Size(n, k) + 1) / 2 && Start(n, k + 1) == Start(n, k) + Size(n, k)
  {
  }

  /** The two nodes that the inner loop hashes are the children of the node it appends. */
  lemma Children<H>(pair: (H, H) -> H, leaves: seq<H>, tree: seq<H>, k: nat, i: nat)
    requires IsFlat(pair, leaves, tree, k + 1, i) && 2 * i < Size(|leaves|, k)
    ensures i < Size(|leaves|, k + 1) && Start(|leaves|, k) + Size(|leaves|, k) <= |tree|
    ensures var j, i2 := Start(|leaves|, k), Min(2 * i + 1, Size(|leaves|, k) - 1);
            Node(pair, leaves, k + 1, i) == pair(tree[j + 2 * i], tree[j + i2])
  {
    hide Size, Start, Node, IsFlat, HasLevel;
    var j, i2 := Start(|leaves|, k), Min(2 * i + 1, Size(|leaves|, k) - 1);
    ChildrenOf(pair, leaves, k, i);
    LevelsOf(pair, leaves, tree, k + 1, i);
    NodeAt(pair, leaves, tree, k, Size(|leaves|, k), 2 * i);
    NodeAt(pair, leaves, tree, k, Size(|leaves|, k), i2);
    LevelAbove(|leaves|, k);
  }

  lemma ChildrenOf<H>(pair: (H, H) -> H, leaves: seq<H>, k: nat, i: nat)
    requires 2 * i < Size(|leaves|, k)
    ensures i < Size(|leaves|, k + 1)
    ensures Node(pair, leaves, k + 1, i) ==
            pair(Node(pair, leaves, k, 2 * i), Node(pair, leaves, k, Min(2 * i + 1, Size(|leaves|, k) - 1)))
  {
    LevelAbove(|leaves|, k);
    hide Size;
  }

  /** The loop stops at the level of the root, or with nothing when there is no leaf. */
  lemma TopLevel<H>(pair: (H, H) -> H, leaves: seq<H>, tree: seq<H>, k: nat)
    requires Size(|leaves|, k) <= 1 && IsFlat(pair, leaves, tree, k, Size(|leaves|, k))
    requires forall l | 0 <= l < k :: Size(|leaves|, l) > 1
    ensures leaves == [] ==> tree == []
    ensures leaves != [] ==> k == Depth(|leaves|) && IsFlat(pair, leaves, tree, k, 1)
    ensures leaves != [] ==> tree != [] && tree[|tree| - 1] == Root(pair, leaves)
  {
    hide Node, Depth, Size, HasLevel, IsFlat, Start;
    RootAlone(|leaves|);
    LevelsOf(pair, leaves, tree, k, Size(|leaves|, k));
    if leaves == [] {
      NoLeaves(k);
    } else {
      assert k == Depth(|leaves|);
      NodeAt(pair, leaves, tree, k, 1, 0);
    }
  }

  lemma {:induction false} NoLeaves(k: nat)
    ensures Size(0, k) == 0 && Start(0, k) == 0
  {
    if k != 0 {
      NoLeaves(k - 1);
    }
  }
}

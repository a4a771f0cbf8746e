/** The stake modifier (src/kernel.cpp:36-208): every few minutes of block time a new 64-bit value is
    drawn from the entropy bits of blocks selected out of a suffix of the chain. */
module StakeModifier {
  import opened Arithmetic
  import opened BlockTree

  const nModifierInterval: nat := 600
  const MODIFIER_INTERVAL_RATIO: nat := 3

  /** The hash of a block's proof hash and a modifier, as a number. */
  type SelectionHash = (nat, nat) -> nat

  datatype Candidate = Candidate(nTime: nat, id: Id)

  // ---------- Sorting by time and hash ----------

  predicate Above(a: Candidate, b: Candidate) {
    a.nTime > b.nTime || (a.nTime == b.nTime && a.id > b.id)
  }

  function Rank(s: seq<Candidate>, c: Candidate): (i: nat)
    ensures i <= |s| && forall j | i <= j < |s| :: Above(s[j], c)
    ensures i > 0 ==> !Above(s[i - 1], c)
  {
    if s == [] then 0 else if Above(s[|s| - 1], c) then Rank(s[..|s| - 1], c) else |s|
  }

  /** std::sort on pairs. */
  function Sort(w: seq<Candidate>): (s: seq<Candidate>)
    ensures |s| == |w|
  {
    if w == [] then [] else
      var s := Sort(w[..|w| - 1]);
      var i := Rank(s, w[|w| - 1]);
      Insert(s, w[|w| - 1], i)
  }

  predicate ByTime(s: seq<Candidate>) {
    forall i, j | 0 <= i < j < |s| :: !Above(s[i], s[j])
  }

  /** That is: by time, and by hash among those of one time. */
  lemma ByTimeMeans(s: seq<Candidate>)
    ensures ByTime(s) <==> forall i, j | 0 <= i < j < |s| ::
              s[i].nTime < s[j].nTime || (s[i].nTime == s[j].nTime && s[i].id <= s[j].id)
  {
  }

  predicate DistinctIds(s: seq<Candidate>) {
    forall i, j | 0 <= i < j < |s| :: s[i].id != s[j].id
  }

  lemma {:induction false} SortSorts(w: seq<Candidate>)
    ensures ByTime(Sort(w)) && forall c :: c in Sort(w) <==> c in w
    ensures DistinctIds(w) ==> DistinctIds(Sort(w))
  {
    if w != [] {
      var k := |w| - 1;
      SortSorts(w[..k]);
      var s, c := Sort(w[..k]), w[k];
      var i := Rank(s, c);
      assert w == w[..k] + [c];
      Inserted(s, c, i);
      if DistinctIds(w) {
        forall j | 0 <= j < |s|
          ensures s[j].id != c.id
        {
          assert s[j] in w[..k];
        }
      }
    }
  }

  function Insert(s: seq<Candidate>, c: Candidate, i: nat): seq<Candidate>
    requires i <= |s|
  {
    s[..i] + [c] + s[i..]
  }

  lemma Inserted(s: seq<Candidate>, c: Candidate, i: nat)
    requires i <= |s| && ByTime(s) && (forall j | i <= j < |s| :: Above(s[j], c)) && (i > 0 ==> !Above(s[i - 1], c))
    ensures var r := Insert(s, c, i);
            && ByTime(r) && (forall x :: x in r <==> x in s || x == c)
            && (DistinctIds(s) && (forall j | 0 <= j < |s| :: s[j].id != c.id) ==> DistinctIds(r))
  {
    hide ByTime, DistinctIds, Insert;
    InsertedOrder(s, c, i);
    InsertedMembers(s, c, i);
    if DistinctIds(s) && forall j | 0 <= j < |s| :: s[j].id != c.id {
      InsertedDistinct(s, c, i);
    }
  }

  lemma InsertedOrder(s: seq<Candidate>, c: Candidate, i: nat)
    requires i <= |s| && ByTime(s) && (forall j | i <= j < |s| :: Above(s[j], c)) && (i > 0 ==> !Above(s[i - 1], c))
    ensures ByTime(Insert(s, c, i))
  {
    forall j | 0 <= j < i
      ensures !Above(s[j], c)
    {
      assert j < i - 1 ==> !Above(s[j], s[i - 1]);
    }
    var r := Insert(s, c, i);
    forall j, k | 0 <= j < k < |r|
      ensures !Above(r[j], r[k])
    {
      var j', k' := if j < i then j else j - 1, if k < i then k else k - 1;
      assert j != i && k != i ==> r[j] == s[j'] && r[k] == s[k'];
    }
  }

  lemma InsertedMembers(s: seq<Candidate>, c: Candidate, i: nat)
    requires i <= |s|
    ensures forall x :: x in Insert(s, c, i) <==> x in s || x == c
  {
    assert s == s[..i] + s[i..];
  }

  lemma InsertedDistinct(s: seq<Candidate>, c: Candidate, i: nat)
    requires i <= |s| && DistinctIds(s) && forall j | 0 <= j < |s| :: s[j].id != c.id
    ensures DistinctIds(Insert(s, c, i))
  {
    var r := Insert(s, c, i);
    forall j, k | 0 <= j < k < |r|
      ensures r[j].id != r[k].id
    {
      var j', k' := if j < i then j else j - 1, if k < i then k else k - 1;
      assert j != i ==> r[j] == s[j'];
      assert k != i ==> r[k] == s[k'];
    }
  }

  // ---------- Selection (src/kernel.cpp:69-109) ----------

  function Weight(t: Tree, hash: SelectionHash, prev: nat, c: Candidate): (w: nat)
    requires c.id in t
    ensures !t[c.id].fProofOfStake ==> w == hash(t[c.id].hashProof, prev)
    ensures t[c.id].fProofOfStake ==>
              w * 0x1_0000_0000 <= hash(t[c.id].hashProof, prev) < (w + 1) * 0x1_0000_0000
  {
    var h := hash(t[c.id].hashProof, prev);
    if t[c.id].fProofOfStake then h / 0x1_0000_0000 else h
  }

  predicate AllIndexed(t: Tree, v: seq<Candidate>) {
    forall i | 0 <= i < |v| :: v[i].id in t && t[v[i].id].nTime == v[i].nTime
  }

  /** Candidate i is free to be selected and in time. */
  predicate InTime(v: seq<Candidate>, taken: set<Id>, stop: int, i: nat)
    requires i < |v|
  {
    v[i].id !in taken && v[i].nTime <= stop
  }

  /** i is the first of least weight among the free candidates in time, or the first free one when none is. */
  ghost predicate IsSelection(t: Tree, hash: SelectionHash, prev: nat, v: seq<Candidate>, taken: set<Id>, stop: int,
                              i: nat)
    requires AllIndexed(t, v)
  {
    && i < |v| && v[i].id !in taken
    && if InTime(v, taken, stop, i) then
      forall j | 0 <= j < |v| && InTime(v, taken, stop, j) ::
        if j < i then Weight(t, hash, prev, v[i]) < Weight(t, hash, prev, v[j])
        else Weight(t, hash, prev, v[i]) <= Weight(t, hash, prev, v[j])
    else
      (forall j | 0 <= j < |v| :: !InTime(v, taken, stop, j)) && (forall j | 0 <= j < i :: v[j].id in taken)
  }

  lemma SelectionUnique(t: Tree, hash: SelectionHash, prev: nat, v: seq<Candidate>, taken: set<Id>, stop: int, i: nat,
                        j: nat)
    requires AllIndexed(t, v)
    requires IsSelection(t, hash, prev, v, taken, stop, i) && IsSelection(t, hash, prev, v, taken, stop, j)
    ensures i == j
  {
    hide Weight;
  }

  /** The scan of the first n candidates has found what the whole scan would find among them. */
  ghost predicate Scanned(t: Tree, hash: SelectionHash, prev: nat, v: seq<Candidate>, taken: set<Id>, stop: int,
                          n: nat, fSelected: bool, best: nat)
    requires AllIndexed(t, v) && n <= |v|
  {
    if fSelected
    then best < n && AllIndexed(t, v[..n]) && IsSelection(t, hash, prev, v[..n], taken, stop, best)
    else forall j | 0 <= j < n :: v[j].id in taken
  }

  /** One more candidate that the loop does not break at. */
  lemma ScanNext(t: Tree, hash: SelectionHash, prev: nat, v: seq<Candidate>, taken: set<Id>, stop: int, n: nat,
                 fSelected: bool, best: nat)
    requires AllIndexed(t, v) && ByTime(v) && n < |v|
    requires Scanned(t, hash, prev, v, taken, stop, n, fSelected, best)
    requires fSelected ==> v[n].nTime <= stop
    ensures if v[n].id in taken || (fSelected && Weight(t, hash, prev, v[n]) >= Weight(t, hash, prev, v[best]))
            then Scanned(t, hash, prev, v, taken, stop, n + 1, fSelected, best)
            else Scanned(t, hash, prev, v, taken, stop, n + 1, true, n)
  {
    hide Weight;
    if fSelected {
      assert v[..n][best] == v[best];
      assert !Above(v[best], v[n]);
    }
  }

  /** Where it breaks no later candidate is in time. */
  lemma ScanBreak(t: Tree, hash: SelectionHash, prev: nat, v: seq<Candidate>, taken: set<Id>, stop: int, n: nat,
                  best: nat)
    requires AllIndexed(t, v) && ByTime(v) && n < |v| && v[n].nTime > stop
    requires Scanned(t, hash, prev, v, taken, stop, n, true, best)
    ensures Scanned(t, hash, prev, v, taken, stop, |v|, true, best)
  {
    hide Weight;
    forall j | n <= j < |v|
      ensures v[j].nTime > stop
    {
      assert j > n ==> !Above(v[n], v[j]);
    }
    assert v[..|v|] == v;
  }

  /** Fails only when every candidate is taken, or one of them is not in the index. */
  method SelectBlockFromCandidates(t: Tree, hash: SelectionHash, v: seq<Candidate>, taken: set<Id>, stop: int,
                                   prev: nat)
    returns (fSelected: bool, best: nat)
    requires ByTime(v)
    ensures AllIndexed(t, v) ==> (fSelected <==> exists j :: 0 <= j < |v| && v[j].id !in taken)
    ensures AllIndexed(t, v) && fSelected ==> IsSelection(t, hash, prev, v, taken, stop, best)
    ensures fSelected ==> best < |v| && v[best].id !in taken && v[best].id in t
  {
    fSelected, best := false, 0;
    var hashBest := 0;
    var n := 0;
    while n < |v|
      invariant n <= |v|
      invariant AllIndexed(t, v) ==> Scanned(t, hash, prev, v, taken, stop, n, fSelected, best)
      invariant fSelected ==> best < n && v[best].id !in taken && v[best].id in t
      invariant fSelected ==> hashBest == Weight(t, hash, prev, v[best])
    {
      if v[n].id !in t {
        return false, 0;
      }
      if fSelected && t[v[n].id].nTime > stop {
        if AllIndexed(t, v) {
          ScanBreak(t, hash, prev, v, taken, stop, n, best);
        }
        n := |v|;
        break;
      }
      if AllIndexed(t, v) {
        ScanNext(t, hash, prev, v, taken, stop, n, fSelected, best);
      }
      hide Scanned, Weight, ByTime, IsSelection;
      if v[n].id !in taken {
        var hashSelection := hash(t[v[n].id].hashProof, prev);
        if t[v[n].id].fProofOfStake {
          hashSelection := hashSelection / 0x1_0000_0000;
        }
        WeightIs(t, hash, prev, v[n], hashSelection);
        if fSelected && hashSelection < hashBest {
          hashBest := hashSelection;
          best := n;
        } else if !fSelected {
          fSelected := true;
          hashBest := hashSelection;
          best := n;
        }
      }
      n := n + 1;
    }
    assert v[..|v|] == v;
  }

  lemma WeightIs(t: Tree, hash: SelectionHash, prev: nat, c: Candidate, h: nat)
    requires c.id in t
    requires h == if t[c.id].fProofOfStake then hash(t[c.id].hashProof, prev) / 0x1_0000_0000
            else hash(t[c.id].hashProof, prev)
    ensures h == Weight(t, hash, prev, c)
  {
  }

  // ---------- The value (src/kernel.cpp:52-64, 145-195) ----------

  /** The length of a section: the ratio of the first to the last is one to three. */
  function Section(nSection: nat): (n: nat)
    requires nSection < 64
    ensures n * (63 + 2 * (63 - nSection)) <= 600 * 63 < (n + 1) * (63 + 2 * (63 - nSection))
    ensures 200 <= n <= 600
  {
    var d := 63 + (63 - nSection) * (MODIFIER_INTERVAL_RATIO - 1);
    var n := nModifierInterval * 63 / d;
    assert nModifierInterval * 63 == d * n + nModifierInterval * 63 % d;
    InBounds(n, d);
    n
  }

  lemma InBounds(n: nat, d: nat)
    requires 63 <= d <= 189 && n * d <= 37800 < (n + 1) * d
    ensures 200 <= n <= 600
  {
    if n < 200 {
      NoMore(n + 1, 200, d);
    } else if n > 600 {
      NoMore(601, n, d);
    }
  }

  lemma NoMore(a: nat, b: nat, d: nat)
    requires a <= b
    ensures a * d <= b * d && d * a <= d * b
  {
    assert b * d == a * d + (b - a) * d;
  }

  /** The sections never shrink; the first lasts 200 seconds and the last ten minutes. */
  lemma SectionsGrow(j: nat, k: nat)
    requires j <= k < 64
    ensures Section(j) <= Section(k)
    ensures Section(0) == 200 && Section(63) == 600
  {
    var m, n, c, d := Section(j), Section(k), 63 + 2 * (63 - j), 63 + 2 * (63 - k);
    hide Section;
    if m > n {
      NoMore(n + 1, m, d);
      NoMore(d, c, m);
    }
  }

  /** The first n sections together. */
  function Sections(n: nat): (sum: nat)
    requires n <= 64
    ensures 200 * n <= sum <= 600 * n
  {
    if n == 0 then 0 else Sections(n - 1) + Section(n - 1)
  }

  method GetStakeModifierSelectionInterval() returns (nSelectionInterval: nat)
    ensures nSelectionInterval == Sections(64) && nSelectionInterval > 0
  {
    nSelectionInterval := 0;
    var nSection := 0;
    while nSection < 64
      invariant nSection <= 64 && nSelectionInterval == Sections(nSection)
    {
      nSelectionInterval := nSelectionInterval + Section(nSection);
      nSection := nSection + 1;
    }
  }

  /** The entropy bits of the selected blocks, the one of round r worth 2^r. */
  function BitSum(t: Tree, v: seq<Candidate>, picks: seq<nat>): (m: nat)
    requires AllIndexed(t, v) && forall r | 0 <= r < |picks| :: picks[r] < |v|
    ensures m < Pow2(|picks|)
  {
    if picks == [] then 0
    else
      var k := |picks| - 1;
      BitSum(t, v, picks[..k]) + t[v[picks[k]].id].nEntropyBit * Pow2(k)
  }

  /** Bit r of the value is the entropy bit of round r's block, and the bits past the last round are zero. */
  lemma {:induction false} BitOfRound(t: Tree, v: seq<Candidate>, picks: seq<nat>, r: nat)
    requires AllIndexed(t, v) && forall r | 0 <= r < |picks| :: picks[r] < |v|
    ensures BitSum(t, v, picks) / Pow2(r) % 2 == if r < |picks| then t[v[picks[r]].id].nEntropyBit else 0
  {
    var m := BitSum(t, v, picks);
    if r >= |picks| {
      Pow2Grows(|picks|, r);
      assert m / Pow2(r) == 0 by {
        BelowPower(m, Pow2(r));
      }
    } else {
      var k := |picks| - 1;
      var low, bit := BitSum(t, v, picks[..k]), t[v[picks[k]].id].nEntropyBit;
      if r == k {
        BitAbove(low, bit, Pow2(k));
      } else {
        BitOfRound(t, v, picks[..k], r);
        Pow2Sum(r, k - r);
        HigherBit(low, bit, r, k);
      }
    }
  }

  lemma BitAbove(low: nat, bit: nat, p: nat)
    requires low < p
    ensures (low + bit * p) / p == bit
  {
    ModUnique(low + bit * p, p, bit, low);
  }

  lemma HigherBit(low: nat, bit: nat, r: nat, k: nat)
    requires r < k
    ensures (low + bit * Pow2(k)) / Pow2(r) % 2 == low / Pow2(r) % 2
  {
    Pow2Sum(r, k - r);
    assert Pow2(k - r) == 2 * Pow2(k - r - 1);
    HigherPart(low, bit, Pow2(r), Pow2(k - r - 1), Pow2(k));
  }

  lemma HigherPart(low: nat, bit: nat, p: nat, x: nat, weight: nat)
    requires p > 0 && weight == p * (2 * x)
    ensures (low + bit * weight) / p % 2 == low / p % 2
  {
    Rearrange(bit, p, x);
    EvenPart(low, p, bit * x);
  }

  lemma EvenPart(low: nat, p: nat, c: nat)
    requires p > 0
    ensures (low + p * (2 * c)) / p % 2 == low / p % 2
  {
    var q, s := low / p, low % p;
    assert low == p * q + s;
    assert p * (q + 2 * c) == p * q + p * (2 * c);
    ModUnique(low + p * (2 * c), p, q + 2 * c, s);
    ModUnique(q + 2 * c, 2, q / 2 + c, q % 2);
  }

  lemma Rearrange(b: nat, p: nat, x: nat)
    ensures b * (p * (2 * x)) == p * (2 * (b * x))
  {
    Associate(b, p, 2 * x);
    Associate(p, b, 2 * x);
  }

  // ---------- Rounds ----------

  /** The ids selected so far. */
  function Taken(v: seq<Candidate>, picks: seq<nat>): (ids: set<Id>)
    requires forall r | 0 <= r < |picks| :: picks[r] < |v|
    ensures |ids| <= |picks|
  {
    if picks == [] then {} else Taken(v, picks[..|picks| - 1]) + {v[picks[|picks| - 1]].id}
  }

  /** Each round selects, among the candidates not taken before, up to the end of its section. */
  ghost predicate ArePicks(t: Tree, hash: SelectionHash, prev: nat, v: seq<Candidate>, start: int, picks: seq<nat>)
    requires AllIndexed(t, v)
    decreases |picks|
  {
    && |picks| <= 64 && (forall r | 0 <= r < |picks| :: picks[r] < |v|)
    && (picks == [] ||
        var k := |picks| - 1;
        && ArePicks(t, hash, prev, v, start, picks[..k])
        && IsSelection(t, hash, prev, v, Taken(v, picks[..k]), start + Sections(k + 1), picks[k]))
  }

  lemma {:induction false} PicksUnique(t: Tree, hash: SelectionHash, prev: nat, v: seq<Candidate>, start: int,
                                       p: seq<nat>, q: seq<nat>)
    requires AllIndexed(t, v) && |p| == |q|
    requires ArePicks(t, hash, prev, v, start, p) && ArePicks(t, hash, prev, v, start, q)
    ensures p == q
  {
    hide IsSelection, AllIndexed, Taken, Sections;
    if p != [] {
      var k := |p| - 1;
      PicksUnique(t, hash, prev, v, start, p[..k], q[..k]);
      SelectionUnique(t, hash, prev, v, Taken(v, p[..k]), start + Sections(k + 1), p[k], q[k]);
      assert p == p[..k] + [p[k]] && q == q[..k] + [q[k]];
    }
  }

  /** While fewer ids are taken than there are candidates, one is free: no round fails. */
  lemma {:induction false} SomeFree(v: seq<Candidate>, taken: set<Id>)
    requires DistinctIds(v) && |taken| < |v|
    ensures exists j :: 0 <= j < |v| && v[j].id !in taken
  {
    var k := |v| - 1;
    if v[k].id in taken {
      SomeFree(v[..k], taken - {v[k].id});
      var j :| 0 <= j < k && v[..k][j].id !in taken - {v[k].id};
      assert v[j].id != v[k].id;
    }
  }

  lemma {:induction false} PicksPrefix(t: Tree, hash: SelectionHash, prev: nat, v: seq<Candidate>, start: int,
                                       picks: seq<nat>, n: nat)
    requires AllIndexed(t, v) && ArePicks(t, hash, prev, v, start, picks) && n <= |picks|
    ensures ArePicks(t, hash, prev, v, start, picks[..n])
  {
    hide IsSelection, AllIndexed, Sections;
    if n < |picks| {
      PicksPrefix(t, hash, prev, v, start, picks[..|picks| - 1], n);
      assert picks[..|picks| - 1][..n] == picks[..n];
    } else {
      assert picks[..n] == picks;
    }
  }

  /** Round r takes a candidate up to the end of its section while one that no earlier round took is left there;
      otherwise it takes the earliest that is left. */
  lemma RoundInTime(t: Tree, hash: SelectionHash, prev: nat, v: seq<Candidate>, start: int, picks: seq<nat>, r: nat,
                    j: nat)
    requires AllIndexed(t, v) && ByTime(v) && ArePicks(t, hash, prev, v, start, picks) && r < |picks|
    requires j < |v| && forall i | 0 <= i < r :: picks[i] < |v| && v[picks[i]].id != v[j].id
    ensures picks[r] < |v| && r < 64
    ensures v[j].nTime <= start + Sections(r + 1) ==>
              v[picks[r]].nTime <= start + Sections(r + 1)
              && Weight(t, hash, prev, v[picks[r]]) <= Weight(t, hash, prev, v[j])
    ensures v[picks[r]].nTime > start + Sections(r + 1) ==> v[picks[r]].nTime <= v[j].nTime
  {
    hide *;
    PicksPrefix(t, hash, prev, v, start, picks, r + 1);
    LastPick(t, hash, prev, v, start, picks[..r + 1]);
    assert picks[..r + 1][..r] == picks[..r] && picks[..r + 1][r] == picks[r];
    TakenAre(v, picks[..r]);
    assert forall i | 0 <= i < r :: picks[..r][i] == picks[i];
    SelectedInTime(t, hash, prev, v, Taken(v, picks[..r]), start + Sections(r + 1), picks[r], j);
  }

  lemma LastPick(t: Tree, hash: SelectionHash, prev: nat, v: seq<Candidate>, start: int, picks: seq<nat>)
    requires AllIndexed(t, v) && ArePicks(t, hash, prev, v, start, picks) && picks != []
    ensures |picks| <= 64 && forall r | 0 <= r < |picks| :: picks[r] < |v|
    ensures var k := |picks| - 1;
            IsSelection(t, hash, prev, v, Taken(v, picks[..k]), start + Sections(k + 1), picks[k])
  {
    hide IsSelection, AllIndexed, Sections, Taken;
  }

  lemma SelectedInTime(t: Tree, hash: SelectionHash, prev: nat, v: seq<Candidate>, taken: set<Id>, stop: int, i: nat,
                       j: nat)
    requires AllIndexed(t, v) && ByTime(v) && IsSelection(t, hash, prev, v, taken, stop, i)
    requires j < |v| && v[j].id !in taken
    ensures i < |v|
    ensures v[j].nTime <= stop ==> v[i].nTime <= stop && Weight(t, hash, prev, v[i]) <= Weight(t, hash, prev, v[j])
    ensures v[i].nTime > stop ==> v[i].nTime <= v[j].nTime
  {
    hide Weight;
    assert InTime(v, taken, stop, j) <==> v[j].nTime <= stop;
    assert i < j ==> !Above(v[i], v[j]);
  }

  lemma {:induction false} TakenAre(v: seq<Candidate>, picks: seq<nat>)
    requires forall r | 0 <= r < |picks| :: picks[r] < |v|
    ensures forall id | id in Taken(v, picks) :: exists r :: 0 <= r < |picks| && v[picks[r]].id == id
  {
    if picks != [] {
      var k := |picks| - 1;
      TakenAre(v, picks[..k]);
      forall id | id in Taken(v, picks)
        ensures exists r :: 0 <= r < |picks| && v[picks[r]].id == id
      {
        if id != v[picks[k]].id {
          assert id in Taken(v, picks[..k]);
          var r :| 0 <= r < k && v[picks[..k][r]].id == id;
          assert v[picks[r]].id == id;
        }
      }
    }
  }

  /** Candidate i is at most 200 seconds after the start if any is. */
  predicate FirstInTime(v: seq<Candidate>, start: int, i: nat) {
    i < |v| && ((exists j :: 0 <= j < |v| && v[j].nTime <= start + 200) ==> v[i].nTime <= start + 200)
  }

  lemma FirstRound(t: Tree, hash: SelectionHash, prev: nat, v: seq<Candidate>, start: int, picks: seq<nat>)
    requires AllIndexed(t, v) && ByTime(v) && ArePicks(t, hash, prev, v, start, picks) && picks != []
    ensures FirstInTime(v, start, picks[0])
  {
    PicksInRange(t, hash, prev, v, start, picks);
    hide *;
    FirstSection();
    if j :| 0 <= j < |v| && v[j].nTime <= start + 200 {
      RoundInTime(t, hash, prev, v, start, picks, 0, j);
      InTimeIs(v, start, picks[0]);
    } else {
      InTimeIs(v, start, picks[0]);
    }
  }

  lemma PicksInRange(t: Tree, hash: SelectionHash, prev: nat, v: seq<Candidate>, start: int, picks: seq<nat>)
    requires AllIndexed(t, v) && ArePicks(t, hash, prev, v, start, picks)
    ensures forall r | 0 <= r < |picks| :: picks[r] < |v|
  {
    hide IsSelection, AllIndexed, Sections, Taken;
  }

  lemma FirstSection()
    ensures Sections(1) == 200
  {
    SectionsGrow(0, 0);
    assert Sections(0) == 0;
  }

  lemma InTimeIs(v: seq<Candidate>, start: int, i: nat)
    requires i < |v|
    ensures FirstInTime(v, start, i) <==>
            ((exists j :: 0 <= j < |v| && v[j].nTime <= start + 200) ==> v[i].nTime <= start + 200)
  {
  }

  // ---------- Candidates ----------

  function ToCandidate(t: Tree, b: Id): Candidate
    requires b in t
  {
    Candidate(t[b].nTime, b)
  }

  /** The blocks from b back to the first one before the start, the earliest first. */
  function Suffix(t: Tree, b: Id, start: int): seq<Candidate>
    requires WellFormed(t) && b in t
    decreases t[b].nHeight
  {
    if t[b].nTime < start then []
    else (if WellPlaced(t, t[b]) && t[b].pprev.To? then Suffix(t, t[b].pprev.id, start) else []) + [ToCandidate(t, b)]
  }

  lemma {:induction false} SuffixFacts(t: Tree, b: Id, start: int)
    requires WellFormed(t) && b in t
    ensures AllIndexed(t, Suffix(t, b, start)) && DistinctIds(Suffix(t, b, start))
    ensures forall i | 0 <= i < |Suffix(t, b, start)| :: t[Suffix(t, b, start)[i].id].nHeight <= t[b].nHeight
    ensures t[b].nTime >= start ==> Suffix(t, b, start) != []
    decreases t[b].nHeight
  {
    if t[b].nTime >= start && WellPlaced(t, t[b]) && t[b].pprev.To? {
      hide WellFormed;
      SuffixFacts(t, t[b].pprev.id, start);
    }
  }

  /** v holds the k blocks from b back, none of them before the start, and the next one, if any, is. */
  ghost predicate ReachesBack(t: Tree, b: Id, start: int, v: seq<Candidate>, k: nat)
    requires WellFormed(t) && b in t
  {
    && |v| == k <= t[b].nHeight + 1
    && (forall i | 0 <= i < k :: v[k - 1 - i].id == Back(t, b, i) && t[Back(t, b, i)].nTime >= start)
    && (k <= t[b].nHeight ==> t[Back(t, b, k)].nTime < start)
  }

  /** The candidates are the blocks from b back up to genesis or to the first that is before the start. */
  lemma {:induction false} SuffixIs(t: Tree, b: Id, start: int) returns (k: nat)
    requires WellFormed(t) && b in t
    ensures ReachesBack(t, b, start, Suffix(t, b, start), k)
    decreases t[b].nHeight
  {
    assert WellPlaced(t, t[b]) && Back(t, b, 0) == b;
    hide WellFormed;
    if t[b].nTime < start {
      k := 0;
    } else if t[b].pprev.To? {
      var a := t[b].pprev.id;
      k := SuffixIs(t, a, start);
      hide ReachesBack;
      ReachesOneMore(t, b, start, Suffix(t, a, start), k);
      k := k + 1;
    } else {
      k := 1;
    }
  }

  lemma ReachesOneMore(t: Tree, b: Id, start: int, v: seq<Candidate>, k: nat)
    requires WellFormed(t) && b in t && t[b].pprev.To? && t[b].pprev.id in t && t[b].nTime >= start
    requires t[t[b].pprev.id].nHeight + 1 == t[b].nHeight && ReachesBack(t, t[b].pprev.id, start, v, k)
    ensures ReachesBack(t, b, start, v + [ToCandidate(t, b)], k + 1)
  {
    var a, w := t[b].pprev.id, v + [ToCandidate(t, b)];
    forall i | 0 <= i <= t[b].nHeight
      ensures Back(t, b, i) == if i == 0 then b else Back(t, a, i - 1)
    {
    }
    hide WellFormed, Back;
    forall i | 0 <= i < k + 1
      ensures w[k - i].id == Back(t, b, i) && t[Back(t, b, i)].nTime >= start
    {
      if i != 0 {
        assert w[k - i] == v[k - 1 - (i - 1)];
      }
    }
  }

  lemma SortedFacts(t: Tree, v: seq<Candidate>)
    requires AllIndexed(t, v) && DistinctIds(v)
    ensures AllIndexed(t, Sort(v)) && DistinctIds(Sort(v)) && ByTime(Sort(v))
  {
    SortSorts(v);
    hide Sort, DistinctIds, ByTime;
    forall i | 0 <= i < |Sort(v)|
      ensures Sort(v)[i].id in t && t[Sort(v)[i].id].nTime == Sort(v)[i].nTime
    {
      assert Sort(v)[i] in v;
    }
  }

  // ---------- The next modifier (src/kernel.cpp:36-49, 124-208) ----------

  /** The nearest generating block from b back, or genesis. */
  function Last(t: Tree, b: Id): (a: Id)
    requires WellFormed(t) && b in t
    ensures a in t && t[a].nHeight <= t[b].nHeight
    decreases t[b].nHeight
  {
    if t[b].pprev.To? && !t[b].fGenerated && WellPlaced(t, t[b]) then Last(t, t[b].pprev.id) else b
  }

  method GetLastStakeModifier(t: Tree, from: Pointer) returns (ok: bool, nStakeModifier: nat, nModifierTime: nat)
    requires WellFormed(t) && (from.To? ==> from.id in t)
    ensures ok <==> from.To? && t[Last(t, from.id)].fGenerated
    ensures ok ==> nStakeModifier == t[Last(t, from.id)].nStakeModifier && nModifierTime == t[Last(t, from.id)].nTime
  {
    if from == Null {
      return false, 0, 0;
    }
    var pindex := from.id;
    while t[pindex].pprev.To? && !t[pindex].fGenerated
      invariant pindex in t && Last(t, pindex) == Last(t, from.id)
      decreases t[pindex].nHeight
    {
      assert WellPlaced(t, t[pindex]);
      pindex := t[pindex].pprev.id;
    }
    if !t[pindex].fGenerated {
      return false, 0, 0;
    }
    return true, t[pindex].nStakeModifier, t[pindex].nTime;
  }

  /** In which ten minutes a time lies. */
  function Interval(nTime: nat): (i: nat)
    ensures 600 * i <= nTime < 600 * (i + 1)
  {
    nTime / nModifierInterval
  }

  function Start(t: Tree, b: Id): int
    requires b in t
  {
    Interval(t[b].nTime) * nModifierInterval - Sections(64)
  }

  function Candidates(t: Tree, b: Id): (v: seq<Candidate>)
    requires WellFormed(t) && b in t
    ensures AllIndexed(t, v) && DistinctIds(v) && ByTime(v)
  {
    SuffixFacts(t, b, Start(t, b));
    SortedFacts(t, Suffix(t, b, Start(t, b)));
    Sort(Suffix(t, b, Start(t, b)))
  }

  /** The modifier for a block on top of pprev; picks are the selections when a new one is generated. */
  ghost predicate Next(t: Tree, hash: SelectionHash, pprev: Pointer, nStakeModifier: nat, fGenerated: bool,
                       picks: seq<nat>)
    requires WellFormed(t) && (pprev.To? ==> pprev.id in t)
  {
    match pprev
    case Null => nStakeModifier == 0 && fGenerated && picks == []
    case To(b) =>
      var last := t[Last(t, b)];
      && last.fGenerated
      && if Interval(last.nTime) >= Interval(t[b].nTime) then
        nStakeModifier == last.nStakeModifier && !fGenerated && picks == []
      else
        && fGenerated && |picks| == Min(64, |Candidates(t, b)|)
        && ArePicks(t, hash, last.nStakeModifier, Candidates(t, b), Start(t, b), picks)
        && nStakeModifier == BitSum(t, Candidates(t, b), picks)
  }

  /** Fails only when the chain's genesis has not generated a modifier. */
  method ComputeNextStakeModifier(t: Tree, hash: SelectionHash, pindexPrev: Pointer)
    returns (ok: bool, nStakeModifier: nat, fGenerated: bool, ghost picks: seq<nat>)
    requires WellFormed(t) && (pindexPrev.To? ==> pindexPrev.id in t)
    ensures ok <==> pindexPrev == Null || t[Last(t, pindexPrev.id)].fGenerated
    ensures ok ==> Next(t, hash, pindexPrev, nStakeModifier, fGenerated, picks)
    ensures ok && picks != [] ==>
              pindexPrev.To? && FirstInTime(Candidates(t, pindexPrev.id), Start(t, pindexPrev.id), picks[0])
  {
    hide Candidates, Last, Sort, Suffix, WellFormed, ArePicks, ByTime, DistinctIds, AllIndexed, FirstInTime;
    hide Interval, Sections, Start, BitSum, Pow2, Weight, Section, Taken, IsSelection;
    nStakeModifier, fGenerated, picks := 0, false, [];
    if pindexPrev == Null {
      return true, 0, true, [];
    }
    var b := pindexPrev.id;
    var found, prev, nModifierTime := GetLastStakeModifier(t, pindexPrev);
    if !found {
      return false, 0, false, [];
    }
    if Interval(nModifierTime) >= Interval(t[b].nTime) {
      return true, prev, false, [];
    }
    var nSelectionInterval := GetStakeModifierSelectionInterval();
    var start := Interval(t[b].nTime) * nModifierInterval - nSelectionInterval;
    StartIs(t, b);
    var v := Collect(t, b, start);
    v := Sort(v);
    CandidatesAre(t, b);
    nStakeModifier, picks := SelectRounds(t, hash, prev, v, start);
    if picks != [] {
      FirstRound(t, hash, prev, v, start, picks);
    }
    return true, nStakeModifier, true, picks;
  }

  lemma StartIs(t: Tree, b: Id)
    requires b in t
    ensures Start(t, b) == Interval(t[b].nTime) * nModifierInterval - Sections(64)
  {
  }

  lemma CandidatesAre(t: Tree, b: Id)
    requires WellFormed(t) && b in t
    ensures Candidates(t, b) == Sort(Suffix(t, b, Start(t, b)))
  {
  }

  /** The walk back: appended one by one and reversed at the end, that is, put in front one by one. */
  method Collect(t: Tree, b: Id, start: int) returns (v: seq<Candidate>)
    requires WellFormed(t) && b in t
    ensures v == Suffix(t, b, start)
  {
    v := [];
    var pindex := To(b);
    while pindex.To? && t[pindex.id].nTime >= start
      invariant pindex.To? ==> pindex.id in t
      invariant Suffix(t, b, start) == (if pindex.To? then Suffix(t, pindex.id, start) else []) + v
      decreases if pindex.To? then t[pindex.id].nHeight + 1 else 0
    {
      assert WellPlaced(t, t[pindex.id]);
      hide WellFormed;
      v := [ToCandidate(t, pindex.id)] + v;
      pindex := t[pindex.id].pprev;
    }
  }

  /** The rounds; none of them fails. */
  method SelectRounds(t: Tree, hash: SelectionHash, prev: nat, v: seq<Candidate>, start: int)
    returns (nStakeModifierNew: nat, ghost picks: seq<nat>)
    requires AllIndexed(t, v) && DistinctIds(v) && ByTime(v)
    ensures |picks| == Min(64, |v|) && ArePicks(t, hash, prev, v, start, picks)
    ensures nStakeModifierNew == BitSum(t, v, picks)
  {
    hide IsSelection, AllIndexed, DistinctIds, ByTime, Section, ArePicks, BitSum, Taken, Sections, Pow2;
    nStakeModifierNew, picks := 0, [];
    var stop := start;
    var selected: set<Id> := {};
    var weight := 1;
    var nRound := 0;
    NoPicks(t, hash, prev, v, start);
    while nRound < Min(64, |v|)
      invariant nRound == |picks| <= Min(64, |v|) && ArePicks(t, hash, prev, v, start, picks)
      invariant forall r | 0 <= r < |picks| :: picks[r] < |v|
      invariant selected == Taken(v, picks) && stop == start + Sections(nRound)
      invariant weight == Pow2(nRound) && nStakeModifierNew == BitSum(t, v, picks)
    {
      stop := stop + Section(nRound);
      SomeFree(v, selected);
      var fSelected, best := SelectBlockFromCandidates(t, hash, v, selected, stop, prev);
      RoundMore(nRound);
      PickMore(t, hash, prev, v, start, picks, best);
      nStakeModifierNew := nStakeModifierNew + t[v[best].id].nEntropyBit * weight;
      selected := selected + {v[best].id};
      picks := picks + [best];
      weight := weight * 2;
      nRound := nRound + 1;
    }
  }

  lemma NoPicks(t: Tree, hash: SelectionHash, prev: nat, v: seq<Candidate>, start: int)
    requires AllIndexed(t, v)
    ensures ArePicks(t, hash, prev, v, start, []) && Taken(v, []) == {} && BitSum(t, v, []) == 0
    ensures Sections(0) == 0 && Pow2(0) == 1
  {
  }

  lemma RoundMore(k: nat)
    requires k < 64
    ensures Sections(k + 1) == Sections(k) + Section(k) && Pow2(k + 1) == 2 * Pow2(k)
  {
  }

  lemma SelectedIndexed(t: Tree, hash: SelectionHash, prev: nat, v: seq<Candidate>, taken: set<Id>, stop: int, i: nat)
    requires AllIndexed(t, v) && IsSelection(t, hash, prev, v, taken, stop, i)
    ensures i < |v| && v[i].id in t
  {
  }

  lemma PickMore(t: Tree, hash: SelectionHash, prev: nat, v: seq<Candidate>, start: int, picks: seq<nat>, best: nat)
    requires AllIndexed(t, v) && |picks| < 64 && ArePicks(t, hash, prev, v, start, picks)
    requires IsSelection(t, hash, prev, v, Taken(v, picks), start + Sections(|picks| + 1), best)
    ensures ArePicks(t, hash, prev, v, start, picks + [best]) && best < |v| && v[best].id in t
    ensures Taken(v, picks + [best]) == Taken(v, picks) + {v[best].id}
    ensures BitSum(t, v, picks + [best]) == BitSum(t, v, picks) + t[v[best].id].nEntropyBit * Pow2(|picks|)
  {
    SelectedIndexed(t, hash, prev, v, Taken(v, picks), start + Sections(|picks| + 1), best);
    PicksInRange(t, hash, prev, v, start, picks);
    hide *;
    assert (picks + [best])[..|picks|] == picks;
    OneMorePick(t, hash, prev, v, start, picks + [best]);
    TakenMore(v, picks, best);
    BitMore(t, v, picks, best);
  }

  lemma OneMorePick(t: Tree, hash: SelectionHash, prev: nat, v: seq<Candidate>, start: int, picks: seq<nat>)
    requires AllIndexed(t, v) && 0 < |picks| <= 64 && forall r | 0 <= r < |picks| :: picks[r] < |v|
    requires ArePicks(t, hash, prev, v, start, picks[..|picks| - 1])
    requires var k := |picks| - 1;
             IsSelection(t, hash, prev, v, Taken(v, picks[..k]), start + Sections(k + 1), picks[k])
    ensures ArePicks(t, hash, prev, v, start, picks)
  {
    hide IsSelection, AllIndexed, Sections, Taken;
  }

  lemma TakenMore(v: seq<Candidate>, picks: seq<nat>, best: nat)
    requires best < |v| && forall r | 0 <= r < |picks| :: picks[r] < |v|
    ensures Taken(v, picks + [best]) == Taken(v, picks) + {v[best].id}
  {
    assert (picks + [best])[..|picks|] == picks;
  }

  lemma BitMore(t: Tree, v: seq<Candidate>, picks: seq<nat>, best: nat)
    requires AllIndexed(t, v) && best < |v| && forall r | 0 <= r < |picks| :: picks[r] < |v|
    ensures v[best].id in t
    ensures BitSum(t, v, picks + [best]) == BitSum(t, v, picks) + t[v[best].id].nEntropyBit * Pow2(|picks|)
  {
    hide Pow2;
    assert (picks + [best])[..|picks|] == picks;
  }
}

/** The median time past (src/main.h:1232-1251) and the rule that a block must be later than its
    predecessor's (src/main.cpp:2135-2137). */
module MedianTime {
  import opened BlockTree

  const nMedianTimeSpan: nat := 11

  /** How many elements are below x. */
  function Below(w: seq<int>, x: int): nat {
    if w == [] then 0 else Below(w[..|w| - 1], x) + if w[|w| - 1] < x then 1 else 0
  }

  lemma {:induction false} BelowSum(v: seq<int>, w: seq<int>, x: int)
    ensures Below(v + w, x) == Below(v, x) + Below(w, x)
  {
    if w == [] {
      assert v + w == v;
    } else {
      BelowSum(v, w[..|w| - 1], x);
      assert (v + w)[..|v + w| - 1] == v + w[..|w| - 1];
    }
  }

  lemma {:induction false} BelowBounds(w: seq<int>, x: int, y: int)
    requires x <= y
    ensures Below(w, x) <= Below(w, y) <= |w|
  {
    if w != [] {
      BelowBounds(w[..|w| - 1], x, y);
    }
  }

  predicate IsSorted(s: seq<int>) {
    forall i, j | 0 <= i <= j < |s| :: s[i] <= s[j]
  }

  lemma InsertedBelow(s: seq<int>, v: int, i: nat, x: int)
    requires i <= |s|
    ensures Below(s[..i] + [v] + s[i..], x) == Below(s, x) + if v < x then 1 else 0
  {
    BelowSum(s[..i] + [v], s[i..], x);
    BelowSum(s[..i], [v], x);
    BelowSum(s[..i], s[i..], x);
    assert s == s[..i] + s[i..];
    assert Below([v], x) == Below([], x) + if v < x then 1 else 0;
  }

  /** std::sort. */
  function Sort(w: seq<int>): (s: seq<int>)
    ensures |s| == |w|
  {
    if w == [] then [] else
      var s := Sort(w[..|w| - 1]);
      var i := Rank(s, w[|w| - 1]);
      s[..i] + [w[|w| - 1]] + s[i..]
  }

  /** Where v goes in s: after everything that is not above it. */
  function Rank(s: seq<int>, v: int): (i: nat)
    ensures i <= |s| && forall j | i <= j < |s| :: s[j] > v
    ensures i > 0 ==> s[i - 1] <= v
  {
    if s == [] then 0 else if s[|s| - 1] > v then Rank(s[..|s| - 1], v) else |s|
  }

  /** The elements in order, each as often as before. */
  lemma {:induction false} SortSorts(w: seq<int>, x: int)
    ensures IsSorted(Sort(w)) && Below(Sort(w), x) == Below(w, x)
  {
    if w != [] {
      var v, s := w[|w| - 1], Sort(w[..|w| - 1]);
      SortSorts(w[..|w| - 1], x);
      InsertedBelow(s, v, Rank(s, v), x);
    }
  }

  /** m is in the middle of w: at most half are below it, more than half are not above. */
  ghost predicate IsMedian(w: seq<int>, m: int) {
    Below(w, m) <= |w| / 2 < Below(w, m + 1)
  }

  lemma {:induction false} SortedBelow(s: seq<int>, k: nat, x: int)
    requires IsSorted(s) && k <= |s|
    ensures (forall i | 0 <= i < k :: s[i] < x) ==> Below(s, x) >= k
    ensures (forall i | k <= i < |s| :: s[i] >= x) ==> Below(s, x) <= k
  {
    if k < |s| {
      SortedBelow(s[..|s| - 1], k, x);
    } else if s != [] {
      SortedBelow(s[..|s| - 1], k - 1, x);
    }
    BelowBounds(s, x, x);
  }

  lemma MiddleIsMedian(w: seq<int>)
    requires w != []
    ensures IsMedian(w, Sort(w)[|w| / 2])
  {
    hide Below, Sort;
    var s, k := Sort(w), |w| / 2;
    SortSorts(w, s[k]);
    SortSorts(w, s[k] + 1);
    SortedBelow(s, k, s[k]);
    SortedBelow(s, k + 1, s[k] + 1);
  }

  lemma MedianUnique(w: seq<int>, m: int, m': int)
    requires IsMedian(w, m) && IsMedian(w, m')
    ensures m == m'
  {
    if m < m' {
      BelowBounds(w, m + 1, m');
    } else if m' < m {
      BelowBounds(w, m' + 1, m);
    }
  }

  /** The times of a block and the ten before it, or as many as there are, the earliest first. */
  function Window(t: Tree, b: Id): (w: seq<int>)
    requires WellFormed(t) && b in t
  {
    var n := Span(t[b].nHeight);
    seq(n, i requires 0 <= i < n => t[Back(t, b, n - 1 - i)].nTime)
  }

  function Span(nHeight: nat): (n: nat)
    ensures n <= 11 && n <= nHeight + 1 && (n == 11 || n == nHeight + 1)
  {
    if nHeight < nMedianTimeSpan - 1 then nHeight + 1 else nMedianTimeSpan
  }

  function Median(t: Tree, b: Id): int
    requires WellFormed(t) && b in t
  {
    var w := Window(t, b);
    Sort(w)[|w| / 2]
  }

  method GetMedianTimePast(t: Tree, b: Id) returns (m: int)
    requires WellFormed(t) && b in t
    ensures m == Median(t, b) && IsMedian(Window(t, b), m)
  {
    var times: seq<int> := [];
    var pindex := To(b);
    var i := 0;
    hide WellFormed, Back, Collected, Sort, Below;
    CollectNone(t, b);
    while i < nMedianTimeSpan && pindex.To?
      invariant i <= Span(t[b].nHeight) && Collected(t, b, i, times)
      invariant pindex == if i <= t[b].nHeight then To(Back(t, b, i)) else Null
    {
      CollectMore(t, b, i, times);
      BackNext(t, b, i);
      times := [t[pindex.id].nTime] + times;
      pindex := t[pindex.id].pprev;
      i := i + 1;
    }
    AllCollected(t, b, i, times);
    MiddleIsMedian(times);
    var sorted := Sort(times);
    m := sorted[|sorted| / 2];
  }

  lemma AllCollected(t: Tree, b: Id, i: nat, times: seq<int>)
    requires WellFormed(t) && b in t && Collected(t, b, i, times) && i == Span(t[b].nHeight)
    ensures times == Window(t, b)
  {
    hide WellFormed, Back;
  }

  /** The times of the last i blocks. */
  ghost predicate Collected(t: Tree, b: Id, i: nat, times: seq<int>)
    requires WellFormed(t) && b in t
  {
    |times| == i <= t[b].nHeight + 1 && forall j | 0 <= j < i :: times[j] == t[Back(t, b, i - 1 - j)].nTime
  }

  lemma CollectNone(t: Tree, b: Id)
    requires WellFormed(t) && b in t
    ensures Collected(t, b, 0, []) && Back(t, b, 0) == b
  {
  }

  lemma CollectMore(t: Tree, b: Id, i: nat, times: seq<int>)
    requires WellFormed(t) && b in t && Collected(t, b, i, times) && i <= t[b].nHeight
    ensures Collected(t, b, i + 1, [t[Back(t, b, i)].nTime] + times)
  {
    hide WellFormed, Back;
  }

  // ---------- The rule and what it keeps ----------

  /** A block's window is its predecessor's with the block's time added and, when full, the oldest one gone. */
  lemma WindowNext(t: Tree, b: Id)
    requires WellFormed(t) && b in t && t[b].pprev.To?
    ensures t[b].pprev.id in t
    ensures var w := Window(t, t[b].pprev.id);
            Window(t, b) == (if |w| < nMedianTimeSpan then w else w[1..]) + [t[b].nTime]
  {
    hide WellFormed, Back;
    BackParent(t, b);
    var w, w' := Window(t, t[b].pprev.id), Window(t, b);
    var k := |w'| - 1;
    assert w'[k] == t[b].nTime;
    assert |w| < nMedianTimeSpan ==> w'[..k] == w;
    assert |w| == nMedianTimeSpan ==> w'[..k] == w[1..];
  }

  lemma BackParent(t: Tree, b: Id)
    requires WellFormed(t) && b in t && t[b].pprev.To?
    ensures t[b].pprev.id in t && t[t[b].pprev.id].nHeight + 1 == t[b].nHeight && Back(t, b, 0) == b
    ensures forall i | 1 <= i <= t[b].nHeight :: Back(t, b, i) == Back(t, t[b].pprev.id, i - 1)
  {
    assert WellPlaced(t, t[b]);
  }

  /** Adding a time above the median, and dropping any one time or none, does not lower the median. */
  lemma LaterMedian(w: seq<int>, v: seq<int>, time: int, m: int, m': int)
    requires IsMedian(w, m) && time > m && (v == w || (w != [] && v == w[1..]))
    requires IsMedian(v + [time], m') && |v| + 1 >= |w|
    ensures m' >= m
  {
    if m' < m {
      BelowSum(v, [time], m' + 1);
      assert Below([time], m' + 1) == Below([], m' + 1);
      if v != w {
        BelowSum(w[..1], v, m' + 1);
        assert w == w[..1] + v;
      }
      BelowBounds(w, m' + 1, m);
    }
  }

  /** Every block is later than its predecessor's median time past. */
  ghost predicate TimesRule(t: Tree)
    requires WellFormed(t)
  {
    forall b | b in t && t[b].pprev.To? && t[b].pprev.id in t :: t[b].nTime > Median(t, t[b].pprev.id)
  }

  lemma MedianAfterOne(t: Tree, b: Id)
    requires WellFormed(t) && TimesRule(t) && b in t && t[b].pprev.To? && t[b].pprev.id in t
    ensures Median(t, b) >= Median(t, t[b].pprev.id)
  {
    var p := t[b].pprev.id;
    WindowNext(t, b);
    hide WellFormed, Window, Sort, IsMedian;
    var w := Window(t, p);
    MiddleIsMedian(w);
    MiddleIsMedian(Window(t, b));
    LaterMedian(w, if |w| < nMedianTimeSpan then w else w[1..], t[b].nTime, Median(t, p), Median(t, b));
  }

  lemma ParentLine(t: Tree, a: Id, b: Id)
    requires WellFormed(t) && IsAncestor(t, a, b) && t[a].nHeight < t[b].nHeight
    ensures t[b].pprev.To? && t[b].pprev.id in t && IsAncestor(t, a, t[b].pprev.id)
    ensures t[t[b].pprev.id].nHeight < t[b].nHeight
  {
    assert WellPlaced(t, t[b]);
  }

  /** The median time past never decreases along a chain. */
  lemma {:induction false} MedianNeverDecreases(t: Tree, a: Id, b: Id)
    requires WellFormed(t) && TimesRule(t) && IsAncestor(t, a, b)
    ensures Median(t, b) >= Median(t, a)
    decreases t[b].nHeight
  {
    if t[a].nHeight < t[b].nHeight {
      hide WellFormed, TimesRule, Median;
      ParentLine(t, a, b);
      MedianAfterOne(t, b);
      MedianNeverDecreases(t, a, t[b].pprev.id);
    }
  }

  /** So a block is later than the median time past of every strict ancestor. */
  lemma LaterThanEveryMedian(t: Tree, a: Id, b: Id)
    requires WellFormed(t) && TimesRule(t) && IsAncestor(t, a, b) && a != b
    ensures t[b].nTime > Median(t, a)
  {
    assert t[a].nHeight < t[b].nHeight;
    ParentLine(t, a, b);
    MedianNeverDecreases(t, a, t[b].pprev.id);
  }
}

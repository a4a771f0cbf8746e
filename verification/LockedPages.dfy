/** The manager of memory pages that must not be swapped out (src/allocators.h:48-116): locks of the
    operating system do not stack, so it counts the ranges on each page. */
module LockedPages {
  import opened Arithmetic

  // ---------- Masks ----------

  /** The bitwise and of two numbers. */
  function And(x: nat, y: nat): nat {
    if x == 0 || y == 0 then 0 else 2 * And(x / 2, y / 2) + if x % 2 == 1 && y % 2 == 1 then 1 else 0
  }

  /** The complement of a 64-bit word. */
  function Complement(x: nat): nat
    requires x < TWO_64
  {
    TWO_64 - 1 - x
  }

  /** One less, in 64 bits. */
  function Predecessor(x: nat): (y: nat)
    ensures y < TWO_64
  {
    (x + TWO_64 - 1) % TWO_64
  }

  /** The test of the constructor accepts exactly zero and the powers of two. */
  lemma AcceptsPageSize(p: nat)
    requires p < TWO_64
    ensures And(p, Predecessor(p)) == 0 <==> p == 0 || exists k: nat :: p == Pow2(k)
  {
    hide And, Pow2;
    if p == 0 {
      AndZero(Predecessor(0));
    } else {
      assert Predecessor(p) == p - 1;
      PowerOfTwoTest(p);
    }
  }

  lemma {:induction false} PowerOfTwoTest(p: nat)
    requires p > 0
    ensures And(p, p - 1) == 0 <==> exists k: nat :: p == Pow2(k)
    decreases p
  {
    if p == 1 {
      assert p == Pow2(0);
    } else if p % 2 == 0 {
      var h := p / 2;
      PowerOfTwoTest(h);
      AndStep(p, p - 1);
      assert (p - 1) / 2 == h - 1;
      hide And;
      if k: nat :| h == Pow2(k) {
        assert p == Pow2(k + 1);
      }
      if k: nat :| p == Pow2(k) {
        var j: nat := k - 1;
        assert h == Pow2(j);
      }
    } else {
      AndOdd(p);
      forall k: nat
        ensures p != Pow2(k)
      {
        PowParity(k);
      }
    }
  }

  lemma PowParity(k: nat)
    ensures Pow2(k) == 1 || Pow2(k) % 2 == 0
  {
    if k > 0 {
      Pow2Next(k - 1);
    }
    Pow2Next(0);
    hide Pow2;
  }

  lemma AndOdd(p: nat)
    requires p > 1 && p % 2 == 1
    ensures And(p, p - 1) > 0
  {
    AndSelf(p / 2);
    assert (p - 1) / 2 == p / 2;
  }

  lemma {:induction false} AndSelf(x: nat)
    ensures And(x, x) == x
  {
    if x != 0 {
      AndSelf(x / 2);
    }
  }

  /** j ones over k zeros. */
  function Mask(j: nat, k: nat): nat {
    if k == 0 then Pow2(j) - 1 else 2 * Mask(j, k - 1)
  }

  lemma {:induction false} MaskIs(j: nat, k: nat)
    ensures Mask(j, k) == (Pow2(j) - 1) * Pow2(k)
  {
    if k == 0 {
      assert (Pow2(j) - 1) * 1 == Pow2(j) - 1;
    } else {
      MaskIs(j, k - 1);
      Twice(Pow2(j) - 1, Pow2(k - 1));
    }
  }

  /** Such a mask takes the remainder off. */
  lemma {:induction false} MaskRoundsDown(x: nat, j: nat, k: nat)
    requires x < Pow2(j + k)
    ensures And(x, Mask(j, k)) == x - x % Pow2(k)
  {
    hide And;
    if k == 0 {
      AndOnes(x, j);
    } else {
      MaskRoundsDown(x / 2, j, k - 1);
      MaskStep(x, Mask(j, k - 1), Pow2(k - 1));
    }
  }

  lemma MaskStep(x: nat, m: nat, p: nat)
    requires p > 0 && And(x / 2, m) == x / 2 - x / 2 % p
    ensures And(x, 2 * m) == x - x % (2 * p)
  {
    hide And;
    Halves(x, p);
    AndDouble(x, m);
  }

  lemma AndDouble(x: nat, m: nat)
    ensures And(x, 2 * m) == 2 * And(x / 2, m)
  {
    AndZero(x / 2);
    AndZero(m);
    AndStep(x, 2 * m);
    hide And;
    assert 2 * m / 2 == m;
  }

  lemma AndZero(x: nat)
    ensures And(x, 0) == 0 && And(0, x) == 0
  {
  }

  lemma AndStep(x: nat, y: nat)
    ensures And(x, y) == 2 * And(x / 2, y / 2) + if x % 2 == 1 && y % 2 == 1 then 1 else 0
  {
    AndZero(x / 2);
    AndZero(y / 2);
  }

  lemma Halves(x: nat, p: nat)
    requires p > 0
    ensures x - x % (2 * p) == 2 * (x / 2 - x / 2 % p)
  {
    var h, b := x / 2, x % 2;
    var q, r := h / p, h % p;
    assert h == p * q + r;
    assert x == 2 * p * q + (2 * r + b) by {
      Associate(2, p, q);
    }
    ModUnique(x, 2 * p, q, 2 * r + b);
  }

  lemma {:induction false} AndOnes(x: nat, j: nat)
    requires x < Pow2(j)
    ensures And(x, Pow2(j) - 1) == x
  {
    if j != 0 {
      AndOnes(x / 2, j - 1);
      assert (Pow2(j) - 1) / 2 == Pow2(j - 1) - 1;
    }
  }

  // ---------- Ranges and pages ----------

  datatype Range = Range(base: nat, size: nat)

  function Page(addr: nat, pageSize: nat): (page: nat)
    requires pageSize > 0
    ensures page <= addr < page + pageSize && page % pageSize == 0
  {
    var q := Quotient(addr, pageSize);
    assert addr - addr % pageSize == pageSize * q;
    ModUnique(addr - addr % pageSize, pageSize, q, 0);
    addr - addr % pageSize
  }

  /** The address arithmetic does not leave the 64-bit space, one page at the end included. */
  predicate Fits(r: Range, pageSize: nat)
    requires pageSize > 0
  {
    r.size > 0 ==> r.base + r.size <= TWO_64 && Page(r.base + r.size - 1, pageSize) + pageSize < TWO_64
  }

  /** The page starting at page has a byte of the range. */
  predicate Touches(r: Range, page: nat, pageSize: nat)
    requires pageSize > 0
  {
    r.size > 0 && page % pageSize == 0 && page < r.base + r.size && r.base < page + pageSize
  }

  /** The pages a range touches are those from the page of its first byte to that of its last. */
  lemma TouchesBetween(r: Range, page: nat, pageSize: nat)
    requires pageSize > 0 && r.size > 0 && page % pageSize == 0
    ensures Touches(r, page, pageSize) <==> Page(r.base, pageSize) <= page <= Page(r.base + r.size - 1, pageSize)
  {
    PagesApart(page, Page(r.base, pageSize), pageSize);
    PagesApart(Page(r.base + r.size - 1, pageSize), page, pageSize);
    hide Page;
  }

  /** Two page starts are equal or a page apart. */
  lemma PagesApart(a: nat, b: nat, pageSize: nat)
    requires pageSize > 0 && a % pageSize == 0 && b % pageSize == 0
    ensures a < b ==> a + pageSize <= b
  {
    var i, j := a / pageSize, b / pageSize;
    assert a == pageSize * i && b == pageSize * j;
    Scale(pageSize, j - i);
    assert pageSize * (j - i) == pageSize * j - pageSize * i;
  }

  /** How many live ranges touch a page. */
  function Count(live: seq<Range>, page: nat, pageSize: nat): nat
    requires pageSize > 0
  {
    if live == [] then 0
    else Count(live[..|live| - 1], page, pageSize) + if Touches(live[|live| - 1], page, pageSize) then 1 else 0
  }

  function Without(live: seq<Range>, i: nat): seq<Range>
    requires i < |live|
  {
    live[..i] + live[i + 1..]
  }

  lemma {:induction false} CountWithout(live: seq<Range>, i: nat, page: nat, pageSize: nat)
    requires pageSize > 0 && i < |live|
    ensures Count(live, page, pageSize) ==
            Count(Without(live, i), page, pageSize) + if Touches(live[i], page, pageSize) then 1 else 0
  {
    hide Touches;
    var k := |live| - 1;
    if i == k {
      assert Without(live, i) == live[..k];
    } else {
      CountWithout(live[..k], i, page, pageSize);
      assert Without(live, i)[..k - 1] == Without(live[..k], i);
      assert Without(live, i)[k - 1] == live[k];
    }
  }

  /** The live ranges on a page, and r too when the page is in the stretch from lo up to hi. */
  function Tally(live: seq<Range>, r: Range, lo: nat, hi: nat, page: nat, pageSize: nat): nat
    requires pageSize > 0
  {
    Count(live, page, pageSize) + if Touches(r, page, pageSize) && lo <= page < hi then 1 else 0
  }

  ghost predicate Tallies(histogram: map<nat, nat>, live: seq<Range>, r: Range, lo: nat, hi: nat, pageSize: nat)
    requires pageSize > 0
  {
    && (forall page: nat :: page in histogram <==> Tally(live, r, lo, hi, page, pageSize) > 0)
    && (forall page: nat | page in histogram :: histogram[page] == Tally(live, r, lo, hi, page, pageSize))
  }

  /** The histogram holds the pages that some live range touches, with the number of those ranges. */
  ghost predicate Counts(histogram: map<nat, nat>, live: seq<Range>, pageSize: nat)
    requires pageSize > 0
  {
    && (forall page: nat :: page in histogram <==> Count(live, page, pageSize) > 0)
    && (forall page: nat | page in histogram :: histogram[page] == Count(live, page, pageSize))
  }

  lemma LockOne(histogram: map<nat, nat>, live: seq<Range>, r: Range, page: nat, pageSize: nat)
    requires pageSize > 0 && Tallies(histogram, live, r, 0, page, pageSize) && Touches(r, page, pageSize)
    ensures var n := if page in histogram then histogram[page] + 1 else 1;
            Tallies(histogram[page := n], live, r, 0, page + pageSize, pageSize)
  {
    forall p: nat
      ensures p != page ==> Tally(live, r, 0, page + pageSize, p, pageSize) == Tally(live, r, 0, page, p, pageSize)
    {
      if p % pageSize == 0 {
        PagesApart(page, p, pageSize);
      }
      hide Count;
    }
    hide Count, Touches;
    assert Tally(live, r, 0, page + pageSize, page, pageSize) == Tally(live, r, 0, page, page, pageSize) + 1;
  }

  lemma UnlockOne(histogram: map<nat, nat>, live: seq<Range>, r: Range, page: nat, hi: nat, pageSize: nat)
    requires pageSize > 0 && Tallies(histogram, live, r, page, hi, pageSize) && Touches(r, page, pageSize) && page < hi
    ensures page in histogram && histogram[page] > 0
    ensures Tallies(if histogram[page] == 1 then histogram - {page} else histogram[page := histogram[page] - 1],
                    live, r, page + pageSize, hi, pageSize)
  {
    forall p: nat
      ensures p != page ==> Tally(live, r, page + pageSize, hi, p, pageSize) == Tally(live, r, page, hi, p, pageSize)
    {
      if p % pageSize == 0 {
        PagesApart(page, p, pageSize);
      }
      hide Count;
    }
    hide Count, Touches;
    assert Tally(live, r, page, hi, page, pageSize) == Tally(live, r, page + pageSize, hi, page, pageSize) + 1;
  }

  lemma LockStarts(histogram: map<nat, nat>, live: seq<Range>, r: Range, start: nat, pageSize: nat)
    requires pageSize > 0 && Counts(histogram, live, pageSize) && r.size > 0 && start == Page(r.base, pageSize)
    ensures Tallies(histogram, live, r, 0, start, pageSize)
  {
    hide Count, Page;
    forall page: nat
      ensures Tally(live, r, 0, start, page, pageSize) == Count(live, page, pageSize)
    {
      if Touches(r, page, pageSize) {
        TouchesBetween(r, page, pageSize);
      }
    }
  }

  lemma LockEnds(histogram: map<nat, nat>, live: seq<Range>, r: Range, hi: nat, pageSize: nat)
    requires pageSize > 0 && r.size > 0 && hi > Page(r.base + r.size - 1, pageSize)
    requires Tallies(histogram, live, r, 0, hi, pageSize)
    ensures Counts(histogram, live + [r], pageSize)
  {
    forall page: nat
      ensures Tally(live, r, 0, hi, page, pageSize) == Count(live + [r], page, pageSize)
    {
      CountMore(live, r, page, pageSize);
      hide Count, Page;
      if Touches(r, page, pageSize) {
        TouchesBetween(r, page, pageSize);
      }
    }
    hide Count, Touches, Tally;
  }

  lemma CountMore(live: seq<Range>, r: Range, page: nat, pageSize: nat)
    requires pageSize > 0
    ensures Count(live + [r], page, pageSize) ==
            Count(live, page, pageSize) + if Touches(r, page, pageSize) then 1 else 0
  {
    assert (live + [r])[..|live|] == live;
  }

  lemma UnlockStarts(histogram: map<nat, nat>, live: seq<Range>, i: nat, start: nat, hi: nat, pageSize: nat)
    requires pageSize > 0 && Counts(histogram, live, pageSize) && i < |live| && live[i].size > 0
    requires start == Page(live[i].base, pageSize) && hi > Page(live[i].base + live[i].size - 1, pageSize)
    ensures Tallies(histogram, Without(live, i), live[i], start, hi, pageSize)
  {
    var r := live[i];
    forall page: nat
      ensures Tally(Without(live, i), r, start, hi, page, pageSize) == Count(live, page, pageSize)
    {
      CountWithout(live, i, page, pageSize);
      hide Count, Page;
      if Touches(r, page, pageSize) {
        TouchesBetween(r, page, pageSize);
      }
    }
    hide Count, Touches, Tally;
  }

  lemma UnlockEnds(histogram: map<nat, nat>, live: seq<Range>, r: Range, lo: nat, hi: nat, pageSize: nat)
    requires pageSize > 0 && r.size > 0 && lo > Page(r.base + r.size - 1, pageSize)
    requires Tallies(histogram, live, r, lo, hi, pageSize)
    ensures Counts(histogram, live, pageSize)
  {
    forall page: nat
      ensures Tally(live, r, lo, hi, page, pageSize) == Count(live, page, pageSize)
    {
      hide Count, Page;
      if Touches(r, page, pageSize) {
        TouchesBetween(r, page, pageSize);
      }
    }
    hide Count, Touches, Tally;
  }

  lemma EmptyRange(live: seq<Range>, r: Range, page: nat, pageSize: nat)
    requires pageSize > 0 && r.size == 0
    ensures Count(live + [r], page, pageSize) == Count(live, page, pageSize)
  {
    CountMore(live, r, page, pageSize);
  }

  // ---------- The manager ----------

  class LockedPageManager {
    const pageSize: nat
    const pageMask: nat
    var histogram: map<nat, nat>
    /** The pages the operating system keeps in memory: locking twice is the same as once. */
    var locked: set<nat>
    /** The ranges locked and not yet unlocked. */
    ghost var live: seq<Range>

    /** Each page's count is the number of live ranges on it, and the pages locked are those with one. */
    ghost predicate Valid()
      reads this
    {
      pageSize > 0 && MaskOk() && Counts(histogram, live, pageSize) && locked == histogram.Keys
    }

    ghost predicate MaskOk()
      requires pageSize > 0
    {
      forall x: nat | x < TWO_64 :: And(x, pageMask) == Page(x, pageSize)
    }

    /** Zero passes the assertion too, but no range can be locked in pages of that size. */
    constructor (pageSize: nat)
      requires pageSize < TWO_64 && And(pageSize, Predecessor(pageSize)) == 0
      ensures live == [] && this.pageSize == pageSize && locked == {}
      ensures Valid() <==> pageSize > 0
    {
      this.pageSize := pageSize;
      pageMask := Complement(Predecessor(pageSize));
      histogram, locked, live := map[], {}, [];
      if pageSize > 0 {
        MaskIsRounding(pageSize);
      }
    }

    /** The pages of the first and the last byte. */
    method Ends(r: Range) returns (startPage: nat, endPage: nat)
      requires pageSize > 0 && MaskOk() && Fits(r, pageSize) && r.size > 0
      ensures startPage == Page(r.base, pageSize) && endPage == Page(r.base + r.size - 1, pageSize)
      ensures startPage <= endPage + pageSize && endPage + pageSize < TWO_64 && startPage % pageSize == 0
    {
      hide And, Page;
      var last := r.base + r.size - 1;
      assert last % TWO_64 == last;
      startPage := And(r.base, pageMask);
      endPage := And((r.base + r.size - 1) % TWO_64, pageMask);
    }

    method LockRange(r: Range)
      requires Valid() && Fits(r, pageSize)
      modifies this
      ensures Valid() && live == old(live) + [r]
    {
      hide Counts, Tallies, Page, And, Touches, Without, MaskOk;
      if r.size == 0 {
        NothingLocked(histogram, live, r, pageSize);
        live := live + [r];
        return;
      }
      var startPage, endPage := Ends(r);
      var page := startPage;
      LockStarts(histogram, live, r, page, pageSize);
      while page <= endPage
        invariant startPage <= page <= endPage + pageSize && page % pageSize == 0
        invariant Tallies(histogram, live, r, 0, page, pageSize) && locked == histogram.Keys && live == old(live)
        invariant endPage + pageSize < TWO_64
        decreases endPage + pageSize - page
      {
        TouchesBetween(r, page, pageSize);
        LockOne(histogram, live, r, page, pageSize);
        if page !in histogram {
          locked := locked + {page};
          histogram := histogram[page := 1];
        } else {
          histogram := histogram[page := histogram[page] + 1];
        }
        page := Following(page, pageSize);
      }
      LockEnds(histogram, live, r, page, pageSize);
      live := live + [r];
    }

    /** i is a live range equal to the one given: only what was locked may be unlocked. */
    method UnlockRange(r: Range, ghost i: nat)
      requires Valid() && Fits(r, pageSize) && i < |live| && live[i] == r
      modifies this
      ensures Valid() && live == Without(old(live), i)
    {
      hide Counts, Tallies, Page, And, Touches, Without, MaskOk;
      if r.size == 0 {
        NothingUnlocked(histogram, live, i, pageSize);
        live := Without(live, i);
        return;
      }
      var startPage, endPage := Ends(r);
      var page := startPage;
      ghost var rest := Without(live, i);
      UnlockStarts(histogram, live, i, page, endPage + 1, pageSize);
      while page <= endPage
        invariant startPage <= page <= endPage + pageSize && page % pageSize == 0
        invariant Tallies(histogram, rest, r, page, endPage + 1, pageSize) && locked == histogram.Keys
        invariant endPage + pageSize < TWO_64
        decreases endPage + pageSize - page
      {
        TouchesBetween(r, page, pageSize);
        UnlockOne(histogram, rest, r, page, endPage + 1, pageSize);
        assert page in histogram;
        if histogram[page] == 1 {
          locked := locked - {page};
          histogram := histogram - {page};
        } else {
          histogram := histogram[page := histogram[page] - 1];
        }
        page := Following(page, pageSize);
      }
      UnlockEnds(histogram, rest, r, page, endPage + 1, pageSize);
      live := rest;
    }

    method GetLockedPageCount() returns (n: nat)
      requires Valid()
      ensures n == |locked|
    {
      n := |histogram|;
    }
  }

  /** page += page_size in 64 bits. */
  method Following(page: nat, pageSize: nat) returns (next: nat)
    requires pageSize > 0 && page % pageSize == 0 && page + pageSize < TWO_64
    ensures next == page + pageSize && next % pageSize == 0
  {
    MultipleMore(pageSize, page);
    next := (page + pageSize) % TWO_64;
  }

  lemma NothingLocked(histogram: map<nat, nat>, live: seq<Range>, r: Range, pageSize: nat)
    requires pageSize > 0 && r.size == 0 && Counts(histogram, live, pageSize)
    ensures Counts(histogram, live + [r], pageSize)
  {
    forall page: nat
      ensures Count(live + [r], page, pageSize) == Count(live, page, pageSize)
    {
      EmptyRange(live, r, page, pageSize);
    }
    hide Count;
  }

  lemma NothingUnlocked(histogram: map<nat, nat>, live: seq<Range>, i: nat, pageSize: nat)
    requires pageSize > 0 && i < |live| && live[i].size == 0 && Counts(histogram, live, pageSize)
    ensures Counts(histogram, Without(live, i), pageSize)
  {
    forall page: nat
      ensures Count(Without(live, i), page, pageSize) == Count(live, page, pageSize)
    {
      CountWithout(live, i, page, pageSize);
    }
    hide Count;
  }

  lemma MaskIsRounding(pageSize: nat)
    requires 0 < pageSize < TWO_64 && And(pageSize, pageSize - 1) == 0
    ensures forall x: nat | x < TWO_64 :: And(x, Complement(pageSize - 1)) == Page(x, pageSize)
  {
    hide And, Pow2, Page, Complement;
    PowerOfTwoTest(pageSize);
    var k: nat :| pageSize == Pow2(k);
    Pow2Words();
    if 64 <= k {
      Pow2Grows(64, k);
    }
    forall x: nat | x < TWO_64
      ensures And(x, Complement(pageSize - 1)) == Page(x, pageSize)
    {
      MaskOne(x, k);
    }
  }

  lemma MaskOne(x: nat, k: nat)
    requires x < TWO_64 && k < 64 && Pow2(k) <= TWO_64
    ensures And(x, Complement(Pow2(k) - 1)) == Page(x, Pow2(k))
  {
    hide And, Pow2, Mask;
    Pow2Words();
    Pow2Sum(64 - k, k);
    MaskRoundsDown(x, 64 - k, k);
    MaskIs(64 - k, k);
    Less(Pow2(64 - k), Pow2(k));
  }

  lemma Less(a: nat, p: nat)
    requires a > 0
    ensures (a - 1) * p == a * p - p
  {
  }

  // ---------- When the loop over the pages ends ----------

  /** The loop counter after k turns: page += page_size in 64 bits. */
  function Counter(start: nat, pageSize: nat, k: nat): nat {
    if k == 0 then start else (Counter(start, pageSize, k - 1) + pageSize) % TWO_64
  }

  /** The loop gets past endPage after some number of turns. */
  ghost predicate LoopEnds(startPage: nat, endPage: nat, pageSize: nat) {
    exists k: nat :: Counter(startPage, pageSize, k) > endPage
  }

  /** The loop from startPage up to endPage ends exactly when it has no turn or the page after endPage has
      a 64-bit address. */
  lemma CountingEndsWhen(startPage: nat, endPage: nat, pageSize: nat)
    requires pageSize > 0 && TWO_64 % pageSize == 0
    requires startPage < TWO_64 && endPage < TWO_64 && startPage % pageSize == 0 && endPage % pageSize == 0
    ensures LoopEnds(startPage, endPage, pageSize) <==> startPage > endPage || endPage + pageSize < TWO_64
  {
    if startPage > endPage {
      assert Counter(startPage, pageSize, 0) > endPage;
    } else if endPage + pageSize < TWO_64 {
      var _ := CountsUp(startPage, endPage, pageSize);
    } else {
      forall k: nat
        ensures Counter(startPage, pageSize, k) <= endPage
      {
        CountsPages(startPage, pageSize, k);
        PagesApart(endPage, Counter(startPage, pageSize, k), pageSize);
      }
    }
  }

  lemma {:induction false} CountsPages(start: nat, pageSize: nat, k: nat)
    requires pageSize > 0 && TWO_64 % pageSize == 0 && start < TWO_64 && start % pageSize == 0
    ensures Counter(start, pageSize, k) < TWO_64 && Counter(start, pageSize, k) % pageSize == 0
  {
    if k != 0 {
      CountsPages(start, pageSize, k - 1);
      NextPage(Counter(start, pageSize, k - 1), pageSize);
    }
  }

  lemma NextPage(page: nat, pageSize: nat)
    requires pageSize > 0 && TWO_64 % pageSize == 0 && page < TWO_64 && page % pageSize == 0
    ensures (page + pageSize) % TWO_64 % pageSize == 0
  {
    PagesApart(page, TWO_64, pageSize);
    if page + pageSize == TWO_64 {
      ModUnique(page + pageSize, TWO_64, 1, 0);
      BelowPower(0, pageSize);
    } else {
      BelowPower(page + pageSize, TWO_64);
      MultipleMore(pageSize, page);
    }
  }

  lemma {:induction false} CountsUp(page: nat, endPage: nat, pageSize: nat) returns (k: nat)
    requires 0 < pageSize && page <= endPage && endPage + pageSize < TWO_64
    ensures Counter(page, pageSize, k) > endPage
    decreases endPage - page
  {
    var next := page + pageSize;
    if next > endPage {
      k := 1;
    } else {
      k := CountsUp(next, endPage, pageSize);
      CounterFrom(page, pageSize, k);
      k := k + 1;
    }
  }

  lemma {:induction false} CounterFrom(start: nat, pageSize: nat, k: nat)
    ensures Counter(start, pageSize, k + 1) == Counter((start + pageSize) % TWO_64, pageSize, k)
  {
    if k != 0 {
      CounterFrom(start, pageSize, k - 1);
    }
  }

  /** For every page size that passes the assertion and every range that does not leave the address space,
      the loop over its pages ends exactly when the size is not zero and the range's last page is not the
      last of the address space: what LockRange and UnlockRange require. */
  lemma LoopEndsWhen(r: Range, pageSize: nat)
    requires pageSize < TWO_64 && And(pageSize, Predecessor(pageSize)) == 0
    requires r.size > 0 && r.base + r.size <= TWO_64
    ensures var mask := Complement(Predecessor(pageSize));
            LoopEnds(And(r.base, mask), And(r.base + r.size - 1, mask), pageSize) <==>
            pageSize > 0 && Fits(r, pageSize)
  {
    hide And, LoopEnds, Complement, Predecessor;
    var mask := Complement(Predecessor(pageSize));
    if pageSize == 0 {
      ZeroNeverEnds(r.base, r.base + r.size - 1);
    } else {
      assert Predecessor(pageSize) == pageSize - 1 by { LessOne(pageSize); }
      MaskIsRounding(pageSize);
      WholePages(pageSize);
      hide Page;
      var first, last := r.base, r.base + r.size - 1;
      assert And(first, mask) == Page(first, pageSize) && And(last, mask) == Page(last, pageSize);
      CountingEndsWhen(Page(first, pageSize), Page(last, pageSize), pageSize);
      PagesApart(Page(last, pageSize), Page(first, pageSize), pageSize);
    }
  }

  lemma LessOne(x: nat)
    requires 0 < x < TWO_64
    ensures Predecessor(x) == x - 1
  {
  }

  lemma ZeroNeverEnds(x: nat, y: nat)
    ensures var mask := Complement(Predecessor(0)); !LoopEnds(And(x, mask), And(y, mask), 0)
  {
    assert Complement(Predecessor(0)) == 0;
    AndZero(x);
    AndZero(y);
    hide And;
    forall k: nat
      ensures Counter(0, 0, k) == 0
    {
      StaysZero(k);
    }
  }

  lemma {:induction false} StaysZero(k: nat)
    ensures Counter(0, 0, k) == 0
  {
    if k != 0 {
      StaysZero(k - 1);
    }
  }

  lemma WholePages(pageSize: nat)
    requires 0 < pageSize < TWO_64 && And(pageSize, pageSize - 1) == 0
    ensures TWO_64 % pageSize == 0
  {
    hide And, Pow2;
    PowerOfTwoTest(pageSize);
    var k: nat :| pageSize == Pow2(k);
    Pow2Words();
    if 64 <= k {
      Pow2Grows(64, k);
    }
    Pow2Sum(64 - k, k);
    assert TWO_64 == pageSize * Pow2(64 - k);
    ModUnique(TWO_64, pageSize, Pow2(64 - k), 0);
  }
}

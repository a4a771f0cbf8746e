/** Loading a stored form whose number of buckets is not the program's (src/addrman.h:318-378). The
    stored buckets are read past and every new entry is put in its own bucket, which no check keeps
    from overflowing: what is loaded is consistent exactly when no bucket gets too many. */
module AddrRebuild {
  import opened AddrTables
  import opened AddrOps
  import opened AddrDisk
  import opened AddrRoundTrip

  // ---------- The manager a rebuilt one stands for ----------

  function OwnBucket(keying: Keying, info: AddrInfo): nat {
    GetNewBucket(keying, info.Ip(), info.source)
  }

  function Single(info: AddrInfo): AddrInfo {
    if info.fInTried then info else info.(nRefCount := 1)
  }

  /** The same entries, every new one in its own bucket and in no other. */
  function Rebucketed(keying: Keying, t: Tables): Tables {
    t.(mapInfo := map n | n in t.mapInfo :: Single(t.mapInfo[n]),
       vvNew := seq(NEW_BUCKET_COUNT, b => NewIn(keying, t.mapInfo, b)))
  }

  function NewIn(keying: Keying, m: Infos, b: int): set<int> {
    set n | n in m && !m[n].fInTried && OwnBucket(keying, m[n]) == b
  }

  /** The first k of the stored new entries that hash to bucket b, by number. */
  function OwnTo(keying: Keying, d: Disk, b: int, k: nat): set<int>
    requires k <= |d.news|
  {
    set i | 0 <= i < k && GetNewBucket(keying, d.news[i].addr.service.ip, d.news[i].source) == b
  }

  function Own(keying: Keying, d: Disk, b: int): set<int> {
    OwnTo(keying, d, b, |d.news|)
  }

  lemma {:induction false} RefsIfOne(vvNew: seq<set<int>>, n: int, b: nat)
    requires forall c | 0 <= c < |vvNew| :: n in vvNew[c] <==> c == b
    ensures Refs(vvNew, n) == if b < |vvNew| then 1 else 0
  {
    if vvNew != [] {
      RefsIfOne(vvNew[..|vvNew| - 1], n, b);
    }
  }

  lemma RebucketedNew(keying: Keying, t: Tables)
    requires NewOk(t.mapInfo, t.vvNew, NoId, NoId) && NoId !in t.mapInfo
    ensures NewOk(Rebucketed(keying, t).mapInfo, Rebucketed(keying, t).vvNew, NoId, NoId)
  {
    var s := Rebucketed(keying, t);
    hide GetNewBucket, Refs;
    forall n | n in s.mapInfo
      ensures s.mapInfo[n].nRefCount == Refs(s.vvNew, n)
    {
      var info := t.mapInfo[n];
      if info.fInTried {
        RefsZero(s.vvNew, n);
      } else {
        RefsIfOne(s.vvNew, n, OwnBucket(keying, info));
      }
    }
  }

  /** All of the check but the bucket sizes carries over. */
  lemma RebucketedRest(keying: Keying, t: Tables)
    requires Consistent(keying, t)
    ensures var s := Rebucketed(keying, t);
            && AddrOk(s.mapInfo, s.mapAddr) && NewOk(s.mapInfo, s.vvNew, NoId, NoId)
            && TriedOk(keying, s.mapInfo, s.vvTried) && CountsOk(s.mapInfo, s.nNew, s.nTried, NoId)
            && NoId !in s.mapInfo
  {
    var s := Rebucketed(keying, t);
    Basics(keying, t, NoId, NoId);
    assert SameServices(t.mapInfo, s.mapInfo) && SameTried(t.mapInfo, s.mapInfo);
    hide BucketsOk, IdsOk, RandomOk, AddrOk, NewOk, TriedOk, CountsOk, SameServices, SameTried, Rebucketed;
    RebucketedNew(keying, t);
    KeepAddr(t.mapInfo, s.mapInfo, t.mapAddr);
    KeepTried(keying, t.mapInfo, s.mapInfo, t.vvTried);
    KeepCounts(t.mapInfo, s.mapInfo, t.nNew, t.nTried, NoId);
    RebucketedFields(keying, t);
  }

  lemma RebucketedFields(keying: Keying, t: Tables)
    ensures var s := Rebucketed(keying, t);
            && s == t.(mapInfo := s.mapInfo, vvNew := s.vvNew) && s.mapInfo.Keys == t.mapInfo.Keys
            && |s.vvNew| == NEW_BUCKET_COUNT
  {
  }

  // ---------- What loading does ----------

  /** v is u with the first k new entries in their own buckets. */
  ghost predicate InOwn(keying: Keying, d: Disk, u: Tables, v: Tables, k: nat)
    requires k <= |d.news|
  {
    && v == u.(mapInfo := v.mapInfo, vvNew := v.vvNew)
    && v.mapInfo.Keys == u.mapInfo.Keys
    && (forall n | n in u.mapInfo ::
      v.mapInfo[n] == u.mapInfo[n].(nRefCount := u.mapInfo[n].nRefCount + if 0 <= n < k then 1 else 0))
    && |v.vvNew| == NEW_BUCKET_COUNT
    && forall b | 0 <= b < |v.vvNew| :: v.vvNew[b] == OwnTo(keying, d, b, k)
  }

  lemma NewInOwn(keying: Keying, d: Disk, u: Tables, v: Tables, k: nat)
    requires k < |d.news| && InOwn(keying, d, u, v, k) && k !in u.mapInfo
    ensures InOwn(keying, d, LoadNew(u, k, d.news[k]), Rebucket(keying, LoadNew(v, k, d.news[k]), k), k + 1)
  {
    hide GetNewBucket;
  }

  lemma TriedInOwn(keying: Keying, d: Disk, u: Tables, v: Tables, e: Entry)
    requires InOwn(keying, d, u, v, |d.news|) && |u.vvTried| == TRIED_BUCKET_COUNT && u.nIdCount >= |d.news|
    ensures InOwn(keying, d, LoadTried(keying, u, e), LoadTried(keying, v, e), |d.news|)
    ensures LoadTried(keying, u, e).nIdCount >= |d.news|
  {
    hide GetTriedBucket, OwnTo;
  }

  lemma {:induction false} NewsInOwn(keying: Keying, d: Disk, d': Disk, k: nat)
    requires d' == d.(buckets := d'.buckets) && !Rebuilds(d) && Rebuilds(d') && k <= |d.news|
    ensures InOwn(keying, d, LoadNews(keying, d, k), LoadNews(keying, d', k), k)
    ensures forall n :: n in LoadNews(keying, d, k).mapInfo ==> 0 <= n < k
  {
    hide InOwn, GetNewBucket;
    if k == 0 {
      NothingInOwn(keying, d, d');
    } else {
      NewsInOwn(keying, d, d', k - 1);
      NewInOwn(keying, d, LoadNews(keying, d, k - 1), LoadNews(keying, d', k - 1), k - 1);
    }
  }

  lemma NothingInOwn(keying: Keying, d: Disk, d': Disk)
    requires d' == d.(buckets := d'.buckets)
    ensures InOwn(keying, d, Cleared(d), Cleared(d'), 0)
  {
  }

  lemma {:induction false} TriedsInOwn(keying: Keying, d: Disk, d': Disk, k: nat)
    requires d' == d.(buckets := d'.buckets) && !Rebuilds(d) && Rebuilds(d') && Complete(d) && k <= |d.trieds|
    ensures InOwn(keying, d, LoadTrieds(keying, d, k), LoadTrieds(keying, d', k), |d.news|)
    ensures LoadTrieds(keying, d, k).nIdCount >= |d.news|
  {
    hide LoadNews, LoadTried, GetNewBucket;
    if k == 0 {
      NewsInOwn(keying, d, d', |d.news|);
    } else {
      hide InOwn;
      TriedsInOwn(keying, d, d', k - 1);
      TriedInOwn(keying, d, LoadTrieds(keying, d, k - 1), LoadTrieds(keying, d', k - 1), d.trieds[k - 1]);
    }
  }

  lemma {:induction false} TouchesNothing(t: Tables, refs: seq<int>)
    requires forall i | 0 <= i < |refs| :: refs[i] in t.mapInfo
    ensures TouchAll(t, refs) == t
  {
    if refs != [] {
      TouchesNothing(t, refs[..|refs| - 1]);
      var n := refs[|refs| - 1];
      assert t.mapInfo[n := t.mapInfo[n]] == t.mapInfo;
    }
  }

  lemma {:induction false} SkipsBuckets(keying: Keying, d: Disk, b: nat)
    requires Rebuilds(d) && b <= |d.buckets|
    requires forall c, i | 0 <= c < |d.buckets| && 0 <= i < |d.buckets[c]| ::
               d.buckets[c][i] in LoadTrieds(keying, d, |d.trieds|).mapInfo
    ensures LoadBuckets(keying, d, b) == LoadTrieds(keying, d, |d.trieds|)
  {
    hide LoadTrieds, TouchAll;
    if b != 0 {
      SkipsBuckets(keying, d, b - 1);
      TouchesNothing(LoadTrieds(keying, d, |d.trieds|), d.buckets[b - 1]);
    }
  }

  // ---------- The theorem ----------

  /** A saved form with its bucket lists replaced by another number of lists of stored entries. */
  ghost predicate Altered(keying: Keying, t: Tables, d: Disk, news: seq<int>, trieds: seq<int>, d': Disk) {
    && Consistent(keying, t) && Saves(keying, t, d, news, trieds)
    && d' == d.(buckets := d'.buckets) && Rebuilds(d')
    && forall c, i | 0 <= c < |d'.buckets| && 0 <= i < |d'.buckets[c]| :: 0 <= d'.buckets[c][i] < |news + trieds|
  }

  /** The entries are those of the manager with every new one in its own bucket. */
  lemma RebuildIsIsomorphic(keying: Keying, t: Tables, d: Disk, news: seq<int>, trieds: seq<int>, d': Disk)
    requires Altered(keying, t, d, news, trieds, d')
    ensures Complete(d') && Isomorphic(Rebucketed(keying, t), Loaded(keying, d'), news + trieds)
    ensures forall b | 0 <= b < NEW_BUCKET_COUNT :: Loaded(keying, d').vvNew[b] == Own(keying, d, b)
  {
    hide Consistent, Lists, Indexes, Partial, LoadTrieds, LoadBuckets, Isomorphic, InOwn, Names, Own, OwnTo;
    var ids := news + trieds;
    var u, v := LoadTrieds(keying, d, |d.trieds|), LoadTrieds(keying, d', |d.trieds|);
    TriedsLoaded(keying, t, d, news, trieds, |trieds|);
    TriedsInOwn(keying, d, d', |d.trieds|);
    KnownIds(keying, d, t, u, v, ids);
    SkipsBuckets(keying, d', |d'.buckets|);
    NamesAll(keying, t, news, trieds);
    RebuiltParts(keying, t, d, news, trieds, u, v);
  }

  lemma KnownIds(keying: Keying, d: Disk, t: Tables, u: Tables, v: Tables, ids: seq<int>)
    requires Partial(t, u, ids, |ids|) && InOwn(keying, d, u, v, |d.news|)
    ensures forall i | 0 <= i < |ids| :: i in v.mapInfo
    ensures |v.vvNew| == NEW_BUCKET_COUNT && forall b | 0 <= b < NEW_BUCKET_COUNT :: v.vvNew[b] == Own(keying, d, b)
  {
    hide OwnTo, IndexLoaded, TriedLoaded;
  }

  lemma RebuiltParts(keying: Keying, t: Tables, d: Disk, news: seq<int>, trieds: seq<int>, u: Tables, v: Tables)
    requires Consistent(keying, t) && Saves(keying, t, d, news, trieds) && Names(t.mapInfo, news + trieds)
    requires Partial(t, u, news + trieds, |news + trieds|) && u.nIdCount == |news + trieds|
    requires InOwn(keying, d, u, v, |d.news|)
    ensures Isomorphic(Rebucketed(keying, t), v, news + trieds)
  {
    hide Consistent, Saves, Partial, Rebucketed, Isomorphic, Names, SameBucket, SameList, Renumbered;
    var ids, s := news + trieds, Rebucketed(keying, t);
    RebucketedFields(keying, t);
    RebuiltEntries(keying, t, d, news, trieds, u, v);
    IpsIndexed(keying, t);
    RebuiltLists(t, u, ids);
    BucketCounts(keying, t);
    SameIps(keying, t);
    RebuiltIndex(keying, t, d, u, v, ids);
    Assemble(t, s, v, ids);
  }

  /** Of the fields other than mapInfo and vvNew. */
  lemma RebuiltIndex(keying: Keying, t: Tables, d: Disk, u: Tables, v: Tables, ids: seq<int>)
    requires Names(t.mapInfo, ids) && Partial(t, u, ids, |ids|) && InOwn(keying, d, u, v, |d.news|)
    ensures v.nIdCount == u.nIdCount && v.mapAddr == u.mapAddr && v.vvTried == u.vvTried
    ensures |v.vvNew| == NEW_BUCKET_COUNT && v.nNew == t.nNew && v.nTried == t.nTried
    ensures forall i :: i in v.mapInfo <==> 0 <= i < |ids|
    ensures |v.vRandom| == |ids| && forall i | 0 <= i < |ids| :: v.vRandom[i] == i
    ensures forall i | 0 <= i < |ids| :: ids[i] in t.mapInfo
    ensures forall i | 0 <= i < |ids| :: var ip := t.mapInfo[ids[i]].Ip(); ip in v.mapAddr && v.mapAddr[ip] == i
  {
    hide OwnTo, TriedLoaded;
  }

  lemma Assemble(t: Tables, s: Tables, v: Tables, ids: seq<int>)
    requires s == t.(mapInfo := s.mapInfo, vvNew := s.vvNew) && s.mapInfo.Keys == t.mapInfo.Keys
    requires forall n | n in t.mapInfo :: s.mapInfo[n].Ip() == t.mapInfo[n].Ip()
    requires Names(t.mapInfo, ids)
    requires v.nIdCount == |ids| && v.nNew == t.nNew && v.nTried == t.nTried
    requires forall i :: i in v.mapInfo <==> 0 <= i < |ids|
    requires forall i | 0 <= i < |ids| :: ids[i] in s.mapInfo && v.mapInfo[i] == Renumbered(s.mapInfo[ids[i]], i)
    requires |v.vRandom| == |ids| && forall i | 0 <= i < |ids| :: v.vRandom[i] == i
    requires |v.vvNew| == |s.vvNew| && forall b | 0 <= b < |s.vvNew| :: SameBucket(s.vvNew[b], v.vvNew[b], ids)
    requires |v.vvTried| == |t.vvTried| && forall k | 0 <= k < |t.vvTried| :: SameList(t.vvTried[k], v.vvTried[k], ids)
    requires forall i | 0 <= i < |ids| :: var ip := t.mapInfo[ids[i]].Ip(); ip in v.mapAddr && v.mapAddr[ip] == i
    requires forall a | a in v.mapAddr :: a in t.mapAddr
    ensures Isomorphic(s, v, ids)
  {
    hide SameBucket, SameList, Renumbered;
    forall i | 0 <= i < |ids|
      ensures var ip := s.mapInfo[ids[i]].Ip(); ip in v.mapAddr && v.mapAddr[ip] == i
    {
      var n := ids[i];
      assert n in t.mapInfo;
      assert s.mapInfo[n].Ip() == t.mapInfo[n].Ip();
    }
    assert forall n | n in s.mapInfo :: n in t.mapInfo;
  }

  lemma SameIps(keying: Keying, t: Tables)
    ensures forall n | n in t.mapInfo :: Rebucketed(keying, t).mapInfo[n].Ip() == t.mapInfo[n].Ip()
  {
  }

  lemma IpsIndexed(keying: Keying, t: Tables)
    requires Consistent(keying, t)
    ensures forall n | n in t.mapInfo :: t.mapInfo[n].Ip() in t.mapAddr
  {
    hide BucketsOk, IdsOk, RandomOk, NewOk, TriedOk, CountsOk;
  }

  lemma RebuiltLists(t: Tables, u: Tables, ids: seq<int>)
    requires Partial(t, u, ids, |ids|) && forall n | n in t.mapInfo :: t.mapInfo[n].Ip() in t.mapAddr
    ensures |u.vvTried| == |t.vvTried| && forall b | 0 <= b < |t.vvTried| :: SameList(t.vvTried[b], u.vvTried[b], ids)
    ensures forall a | a in u.mapAddr :: a in t.mapAddr
  {
    forall b | 0 <= b < |t.vvTried|
      ensures SameList(t.vvTried[b], u.vvTried[b], ids)
    {
      assert ListLoaded(t.vvTried[b], u.vvTried[b], ids, |ids|);
    }
    forall a | a in u.mapAddr
      ensures a in t.mapAddr
    {
      var i :| 0 <= i < |ids| && t.mapInfo[ids[i]].Ip() == a;
      var n := ids[i];
      assert n in t.mapInfo && t.mapInfo[n].Ip() in t.mapAddr;
    }
  }

  lemma RebuiltEntries(keying: Keying, t: Tables, d: Disk, news: seq<int>, trieds: seq<int>, u: Tables, v: Tables)
    requires Consistent(keying, t) && Saves(keying, t, d, news, trieds)
    requires Partial(t, u, news + trieds, |news + trieds|) && InOwn(keying, d, u, v, |d.news|)
    ensures var ids, s := news + trieds, Rebucketed(keying, t);
            && (forall i | 0 <= i < |ids| :: ids[i] in s.mapInfo && i in v.mapInfo
                                             && v.mapInfo[i] == Renumbered(s.mapInfo[ids[i]], i))
            && forall b | 0 <= b < NEW_BUCKET_COUNT :: SameBucket(s.vvNew[b], v.vvNew[b], ids)
  {
    var ids, s := news + trieds, Rebucketed(keying, t);
    forall i | 0 <= i < |ids|
      ensures ids[i] in s.mapInfo && i in v.mapInfo && v.mapInfo[i] == Renumbered(s.mapInfo[ids[i]], i)
      ensures t.mapInfo[ids[i]].fInTried <==> i >= |news|
    {
      hide Indexes, GetNewBucket, OwnTo, NewIn, IndexLoaded, TriedLoaded;
      if i < |news| {
        ListedNew(t.mapInfo, news, i);
      } else {
        ListedTried(t.mapInfo, trieds, i - |news|);
        TriedUnreferenced(keying, t, ids[i]);
      }
    }
    forall b | 0 <= b < NEW_BUCKET_COUNT
      ensures SameBucket(s.vvNew[b], v.vvNew[b], ids)
    {
      hide Consistent, Lists, Indexes, GetNewBucket, IndexLoaded, TriedLoaded, EntriesLoaded;
      forall i | 0 <= i < |news|
        ensures i in OwnTo(keying, d, b, |d.news|) <==> ids[i] in NewIn(keying, t.mapInfo, b)
      {
      }
    }
  }

  lemma TriedUnreferenced(keying: Keying, t: Tables, n: int)
    requires Consistent(keying, t) && n in t.mapInfo && t.mapInfo[n].fInTried
    ensures t.mapInfo[n].nRefCount == 0
  {
    hide BucketsOk, IdsOk, RandomOk, AddrOk, TriedOk, CountsOk, Refs;
  }

  /** What is loaded is consistent exactly when no bucket gets more new entries than it has room for. */
  lemma RebuildConsistentWhen(keying: Keying, t: Tables, d: Disk, news: seq<int>, trieds: seq<int>, d': Disk)
    requires Altered(keying, t, d, news, trieds, d')
    ensures Complete(d')
    ensures Consistent(keying, Loaded(keying, d')) <==>
            forall b | 0 <= b < NEW_BUCKET_COUNT :: |Own(keying, d, b)| <= NEW_BUCKET_SIZE
  {
    RebuildIsIsomorphic(keying, t, d, news, trieds, d');
    hide Altered, Loaded;
    SizesDecide(keying, t, Loaded(keying, d'), news + trieds);
  }

  lemma SizesDecide(keying: Keying, t: Tables, v: Tables, ids: seq<int>)
    requires Consistent(keying, t) && Isomorphic(Rebucketed(keying, t), v, ids)
    ensures |v.vvNew| == NEW_BUCKET_COUNT
    ensures Consistent(keying, v) <==> forall b | 0 <= b < NEW_BUCKET_COUNT :: |v.vvNew[b]| <= NEW_BUCKET_SIZE
  {
    var s := Rebucketed(keying, t);
    BucketCounts(keying, t);
    RebucketedRest(keying, t);
    hide RandomOk, AddrOk, NewOk, TriedOk, CountsOk, Isomorphic, Rebucketed, BucketsOk;
    RebucketedFields(keying, t);
    IsoIds(s, v, ids);
    IsoRandom(s, v, ids);
    IsoAddr(s, v, ids);
    IsoNew(s, v, ids);
    IsoTried(keying, s, v, ids);
    IsoCounts(s, v, ids);
    TriedSizes(keying, t, v, ids);
  }

  lemma TriedSizes(keying: Keying, t: Tables, v: Tables, ids: seq<int>)
    requires Consistent(keying, t) && Isomorphic(Rebucketed(keying, t), v, ids)
    ensures |v.vvNew| == NEW_BUCKET_COUNT
    ensures BucketsOk(v.vvNew, v.vvTried) <==> forall b | 0 <= b < NEW_BUCKET_COUNT :: |v.vvNew[b]| <= NEW_BUCKET_SIZE
  {
    hide IdsOk, RandomOk, AddrOk, NewOk, TriedOk, CountsOk, SameBucket, SameList;
    forall k | 0 <= k < |v.vvTried|
      ensures |v.vvTried[k]| <= TRIED_BUCKET_SIZE
    {
      ListNoLarger(t.vvTried[k], v.vvTried[k], ids);
    }
  }
}

/** Saving and loading the address manager (src/addrman.h:248-380). Ids are not stored: new entries
    are numbered in id order, tried ones after them, and everything else is rebuilt. A form with another
    number of buckets than the program has is accepted, too. */
module AddrDisk {
  import opened AddrTables
  import opened AddrOps

  /** What is stored of an entry. */
  datatype Entry = Entry(addr: Address, source: nat, nLastSuccess: int, nAttempts: int)

  /** The fields of the stored form, in order; the number of new buckets is the length of buckets. */
  datatype Disk = Disk(
    nKey: nat, nNew: int, nTried: int, news: seq<Entry>, trieds: seq<Entry>, buckets: seq<seq<int>>)

  /** As many entries are stored as the counters say: otherwise reading fails. */
  predicate Complete(d: Disk) {
    d.nNew == |d.news| && d.nTried == |d.trieds|
  }

  /** A form with another number of buckets: the stored buckets are read past, and every new entry is put
      in the one bucket its own address and source hash to. */
  predicate Rebuilds(d: Disk) {
    |d.buckets| != NEW_BUCKET_COUNT
  }

  function ToEntry(info: AddrInfo): Entry {
    Entry(info.addr, info.source, info.nLastSuccess, info.nAttempts)
  }

  function FromEntry(e: Entry): AddrInfo {
    AddrInfo(e.addr, e.source, e.nLastSuccess, 0, e.nAttempts, 0, false, NoId)
  }

  function DefaultInfo(): AddrInfo {
    AddrInfo(Address(Service(0, 0), {}, 100000000), 0, 0, 0, 0, 0, false, NoId)
  }

  function Lookup(m: Infos, n: int): AddrInfo {
    if n in m then m[n] else DefaultInfo()
  }

  // ---------- Loading, as functions ----------

  function Cleared(d: Disk): Tables {
    Tables(0, map[], map[], [], d.nTried, seq(TRIED_BUCKET_COUNT, _ => []), d.nNew, seq(NEW_BUCKET_COUNT, _ => {}))
  }

  function LoadNew(t: Tables, n: int, e: Entry): Tables {
    t.(mapInfo := t.mapInfo[n := FromEntry(e).(nRandomPos := |t.vRandom|)],
       mapAddr := t.mapAddr[e.addr.service.ip := n],
       vRandom := t.vRandom + [n])
  }

  /** Id n put in its own bucket, however full it is. */
  function Rebucket(keying: Keying, t: Tables, n: int): (s: Tables)
    requires n in t.mapInfo && |t.vvNew| == NEW_BUCKET_COUNT
    ensures |s.vvNew| == NEW_BUCKET_COUNT
  {
    var info := t.mapInfo[n];
    var b := GetNewBucket(keying, info.Ip(), info.source);
    t.(mapInfo := t.mapInfo[n := info.(nRefCount := info.nRefCount + 1)], vvNew := t.vvNew[b := t.vvNew[b] + {n}])
  }

  function LoadEntry(keying: Keying, rebuilds: bool, t: Tables, n: int, e: Entry): (s: Tables)
    requires |t.vvNew| == NEW_BUCKET_COUNT
    ensures |s.vvNew| == NEW_BUCKET_COUNT
  {
    if rebuilds then Rebucket(keying, LoadNew(t, n, e), n) else LoadNew(t, n, e)
  }

  function LoadNews(keying: Keying, d: Disk, k: nat): (t: Tables)
    requires k <= |d.news|
    ensures |t.vvNew| == NEW_BUCKET_COUNT
  {
    if k == 0 then Cleared(d)
    else LoadEntry(keying, Rebuilds(d), LoadNews(keying, d, k - 1), k - 1, d.news[k - 1])
  }

  /** A tried entry for which its bucket has no room is lost. */
  function LoadTried(keying: Keying, t: Tables, e: Entry): Tables
    requires |t.vvTried| == TRIED_BUCKET_COUNT
  {
    var k := GetTriedBucket(keying, e.addr.service);
    if |t.vvTried[k]| < TRIED_BUCKET_SIZE then
      var n := t.nIdCount;
      t.(nIdCount := n + 1,
         mapInfo := t.mapInfo[n := FromEntry(e).(nRandomPos := |t.vRandom|, fInTried := true)],
         mapAddr := t.mapAddr[e.addr.service.ip := n],
         vRandom := t.vRandom + [n],
         vvTried := t.vvTried[k := t.vvTried[k] + [n]])
    else
      t.(nTried := t.nTried - 1)
  }

  function LoadTrieds(keying: Keying, d: Disk, k: nat): (t: Tables)
    requires k <= |d.trieds|
    ensures |t.vvTried| == TRIED_BUCKET_COUNT && |t.vvNew| == NEW_BUCKET_COUNT
  {
    if k == 0 then
      NewsBuckets(keying, d, |d.news|);
      LoadNews(keying, d, |d.news|).(nIdCount := d.nNew)
    else
      LoadTried(keying, LoadTrieds(keying, d, k - 1), d.trieds[k - 1])
  }

  lemma {:induction false} NewsBuckets(keying: Keying, d: Disk, k: nat)
    requires k <= |d.news|
    ensures LoadNews(keying, d, k).vvTried == Cleared(d).vvTried
    ensures !Rebuilds(d) ==> LoadNews(keying, d, k).vvNew == Cleared(d).vvNew
  {
    if k != 0 {
      NewsBuckets(keying, d, k - 1);
    }
  }

  function LoadRef(t: Tables, b: nat, n: int): (r: Tables)
    requires b < |t.vvNew|
    ensures |r.vvNew| == |t.vvNew|
  {
    var info := Lookup(t.mapInfo, n);
    if info.nRefCount < NEW_BUCKETS_PER_ADDRESS then
      t.(mapInfo := t.mapInfo[n := info.(nRefCount := info.nRefCount + 1)],
         vvNew := t.vvNew[b := t.vvNew[b] + {n}])
    else
      t.(mapInfo := t.mapInfo[n := info])
  }

  function LoadRefs(t: Tables, b: nat, refs: seq<int>): (r: Tables)
    requires b < |t.vvNew|
    ensures |r.vvNew| == |t.vvNew|
  {
    if refs == [] then t else LoadRef(LoadRefs(t, b, refs[..|refs| - 1]), b, refs[|refs| - 1])
  }

  /** An index read past: looking it up makes an entry of it if there is none. */
  function Touch(t: Tables, n: int): Tables {
    t.(mapInfo := t.mapInfo[n := Lookup(t.mapInfo, n)])
  }

  function TouchAll(t: Tables, refs: seq<int>): (r: Tables)
    ensures r == t.(mapInfo := r.mapInfo)
  {
    if refs == [] then t else Touch(TouchAll(t, refs[..|refs| - 1]), refs[|refs| - 1])
  }

  function LoadBucket(d: Disk, t: Tables, b: nat): (r: Tables)
    requires b < |d.buckets| && |t.vvNew| == NEW_BUCKET_COUNT
    ensures |r.vvNew| == NEW_BUCKET_COUNT
  {
    if Rebuilds(d) then TouchAll(t, d.buckets[b]) else LoadRefs(t, b, d.buckets[b])
  }

  function LoadBuckets(keying: Keying, d: Disk, b: nat): (t: Tables)
    requires b <= |d.buckets|
    ensures |t.vvNew| == NEW_BUCKET_COUNT
  {
    if b == 0 then LoadTrieds(keying, d, |d.trieds|)
    else LoadBucket(d, LoadBuckets(keying, d, b - 1), b - 1)
  }

  function Loaded(keying: Keying, d: Disk): Tables
    requires Complete(d)
  {
    LoadBuckets(keying, d, |d.buckets|)
  }

  // ---------- What every loaded form keeps within its limits ----------

  predicate RefsWithin(m: Infos) {
    forall n | n in m :: m[n].nRefCount <= 4
  }

  predicate TriedWithin(vvTried: seq<seq<int>>) {
    forall k | 0 <= k < |vvTried| :: |vvTried[k]| <= 64
  }

  lemma {:induction false} NewsWithin(keying: Keying, d: Disk, k: nat)
    requires k <= |d.news|
    ensures RefsWithin(LoadNews(keying, d, k).mapInfo) && TriedWithin(LoadNews(keying, d, k).vvTried)
  {
    hide GetNewBucket;
    if k != 0 {
      NewsWithin(keying, d, k - 1);
    }
  }

  /** Of the tried entries those are lost that find 64 in their bucket, and the counter goes down by each. */
  lemma {:induction false} TriedsWithin(keying: Keying, d: Disk, k: nat)
    requires k <= |d.trieds|
    ensures var t := LoadTrieds(keying, d, k); RefsWithin(t.mapInfo) && TriedWithin(t.vvTried)
    ensures var t := LoadTrieds(keying, d, k); d.nTried - t.nTried == k - (t.nIdCount - d.nNew)
    ensures k > 0 ==>
              var t, t', b := LoadTrieds(keying, d, k - 1), LoadTrieds(keying, d, k),
                              GetTriedBucket(keying, d.trieds[k - 1].addr.service);
              (t'.nTried < t.nTried <==> |t.vvTried[b]| == 64) && (|t.vvTried[b]| == 64 ==> t'.mapInfo == t.mapInfo)
  {
    hide GetTriedBucket;
    if k != 0 {
      TriedsWithin(keying, d, k - 1);
    } else {
      NewsWithin(keying, d, |d.news|);
      NewsCount(keying, d, |d.news|);
    }
  }

  lemma {:induction false} NewsCount(keying: Keying, d: Disk, k: nat)
    requires k <= |d.news|
    ensures LoadNews(keying, d, k).nTried == d.nTried
  {
    if k != 0 {
      NewsCount(keying, d, k - 1);
    }
  }

  lemma {:induction false} RefsLoadedWithin(t: Tables, b: nat, refs: seq<int>)
    requires b < |t.vvNew| && RefsWithin(t.mapInfo) && TriedWithin(t.vvTried)
    ensures RefsWithin(LoadRefs(t, b, refs).mapInfo) && LoadRefs(t, b, refs).vvTried == t.vvTried
  {
    if refs != [] {
      RefsLoadedWithin(t, b, refs[..|refs| - 1]);
    }
  }

  lemma {:induction false} TouchedWithin(t: Tables, refs: seq<int>)
    requires RefsWithin(t.mapInfo)
    ensures RefsWithin(TouchAll(t, refs).mapInfo)
  {
    if refs != [] {
      TouchedWithin(t, refs[..|refs| - 1]);
    }
  }

  lemma {:induction false} BucketsWithin(keying: Keying, d: Disk, b: nat)
    requires b <= |d.buckets|
    ensures var t := LoadBuckets(keying, d, b); RefsWithin(t.mapInfo) && TriedWithin(t.vvTried)
  {
    hide RefsWithin, TriedWithin, LoadRefs, LoadTrieds;
    if b == 0 {
      TriedsWithin(keying, d, |d.trieds|);
    } else {
      BucketsWithin(keying, d, b - 1);
      if Rebuilds(d) {
        TouchedWithin(LoadBuckets(keying, d, b - 1), d.buckets[b - 1]);
      } else {
        RefsLoadedWithin(LoadBuckets(keying, d, b - 1), b - 1, d.buckets[b - 1]);
      }
    }
  }

  /** Whatever is read, no entry gets more than four references and no tried bucket more than 64 entries. */
  lemma LoadedWithin(keying: Keying, d: Disk)
    requires Complete(d)
    ensures forall n | n in Loaded(keying, d).mapInfo :: Loaded(keying, d).mapInfo[n].nRefCount <= 4
    ensures forall k | 0 <= k < |Loaded(keying, d).vvTried| :: |Loaded(keying, d).vvTried[k]| <= 64
  {
    BucketsWithin(keying, d, |d.buckets|);
    hide LoadBuckets;
  }

  // ---------- Saving, as a relation ----------

  /** ids lists the ids of a set in increasing order. */
  ghost predicate Lists(ids: seq<int>, s: set<int>) {
    && (forall i, j | 0 <= i < j < |ids| :: ids[i] < ids[j])
    && (forall i | 0 <= i < |ids| :: ids[i] in s)
    && (forall n | n in s :: n in ids)
  }

  /** refs lists the positions in ids of the members of a bucket. */
  ghost predicate Indexes(refs: seq<int>, bucket: set<int>, ids: seq<int>) {
    && NoDuplicates(refs)
    && (forall i | 0 <= i < |refs| :: 0 <= refs[i] < |ids| && ids[refs[i]] in bucket)
    && (forall n | n in bucket :: exists i :: 0 <= i < |refs| && 0 <= refs[i] < |ids| && ids[refs[i]] == n)
  }

  ghost predicate Saves(keying: Keying, t: Tables, d: Disk, news: seq<int>, trieds: seq<int>) {
    && Complete(d) && !Rebuilds(d)
    && d.nKey == keying.nKey && d.nNew == t.nNew && d.nTried == t.nTried
    && Lists(news, NewIds(t.mapInfo, NoId)) && |news| == |d.news|
    && Lists(trieds, TriedIds(t.mapInfo)) && |trieds| == |d.trieds|
    && (forall i | 0 <= i < |news| :: news[i] in t.mapInfo && d.news[i] == ToEntry(t.mapInfo[news[i]]))
    && (forall i | 0 <= i < |trieds| :: trieds[i] in t.mapInfo && d.trieds[i] == ToEntry(t.mapInfo[trieds[i]]))
    && |t.vvNew| == NEW_BUCKET_COUNT
    && (forall b | 0 <= b < |t.vvNew| :: Indexes(d.buckets[b], t.vvNew[b], news))
  }

  // ---------- What survives ----------

  /** The entry with its id in the loaded manager; the last try is forgotten. */
  function Renumbered(info: AddrInfo, i: int): AddrInfo {
    info.(nLastTry := 0, nRandomPos := i)
  }

  /** t' is t with id ids[i] called i: the same entries in the same buckets, the order of vRandom and
      inside the tried buckets aside. */
  ghost predicate Isomorphic(t: Tables, t': Tables, ids: seq<int>) {
    && NoDuplicates(ids)
    && (forall i | 0 <= i < |ids| :: ids[i] in t.mapInfo)
    && (forall n | n in t.mapInfo :: n in ids)
    && t'.nIdCount == |ids|
    && (forall i :: i in t'.mapInfo <==> 0 <= i < |ids|)
    && (forall i | 0 <= i < |ids| :: t'.mapInfo[i] == Renumbered(t.mapInfo[ids[i]], i))
    && |t'.vRandom| == |ids| && (forall i | 0 <= i < |ids| :: t'.vRandom[i] == i)
    && t'.nNew == t.nNew && t'.nTried == t.nTried
    && |t'.vvNew| == |t.vvNew|
    && (forall b | 0 <= b < |t.vvNew| :: SameBucket(t.vvNew[b], t'.vvNew[b], ids))
    && |t'.vvTried| == |t.vvTried|
    && (forall k | 0 <= k < |t.vvTried| :: SameList(t.vvTried[k], t'.vvTried[k], ids))
    && (forall i | 0 <= i < |ids| ::
      var ip := t.mapInfo[ids[i]].Ip(); ip in t'.mapAddr && t'.mapAddr[ip] == i)
    && (forall a | a in t'.mapAddr :: a in t.mapAddr)
  }

  ghost predicate SameBucket(s: set<int>, s': set<int>, ids: seq<int>) {
    && (forall i | i in s' :: 0 <= i < |ids| && ids[i] in s)
    && (forall i | 0 <= i < |ids| && ids[i] in s :: i in s')
  }

  ghost predicate SameList(s: seq<int>, s': seq<int>, ids: seq<int>) {
    && NoDuplicates(s')
    && (forall j | 0 <= j < |s'| :: 0 <= s'[j] < |ids| && ids[s'[j]] in s)
    && (forall i | 0 <= i < |ids| && ids[i] in s :: i in s')
  }
}

/** Saving and then loading an address manager loses nothing (src/addrman.h:248-380): the result is
    the same manager up to a renaming of ids. */
module AddrRoundTrip {
  import opened AddrTables
  import opened AddrOps
  import opened AddrDisk

  // ---------- The entries ----------

  /** An entry as loaded, before any reference to it is. */
  function Blank(info: AddrInfo, i: int): AddrInfo {
    Renumbered(info, i).(nRefCount := 0)
  }

  /** The first k ids have been loaded. */
  ghost predicate EntriesLoaded(m: Infos, m': Infos, ids: seq<int>, k: nat) {
    && k <= |ids|
    && (forall i | 0 <= i < |ids| :: ids[i] in m)
    && (forall i :: i in m' <==> 0 <= i < k)
    && (forall i | 0 <= i < k :: m'[i] == Blank(m[ids[i]], i))
  }

  ghost predicate IndexLoaded(m: Infos, mapAddr': map<nat, int>, vRandom': seq<int>, ids: seq<int>, k: nat) {
    && k <= |ids|
    && |vRandom'| == k && (forall i | 0 <= i < k :: vRandom'[i] == i)
    && (forall i | 0 <= i < |ids| :: ids[i] in m)
    && (forall i | 0 <= i < k :: var ip := m[ids[i]].Ip(); ip in mapAddr' && mapAddr'[ip] == i)
    && (forall a | a in mapAddr' :: exists i :: 0 <= i < k && m[ids[i]].Ip() == a)
  }

  ghost predicate ListLoaded(s: seq<int>, s': seq<int>, ids: seq<int>, k: nat) {
    && k <= |ids|
    && NoDuplicates(s')
    && (forall j | 0 <= j < |s'| :: 0 <= s'[j] < k && ids[s'[j]] in s)
    && (forall i | 0 <= i < k && ids[i] in s :: i in s')
  }

  ghost predicate TriedLoaded(vvTried: seq<seq<int>>, vvTried': seq<seq<int>>, ids: seq<int>, k: nat) {
    && |vvTried'| == |vvTried|
    && forall b | 0 <= b < |vvTried| :: ListLoaded(vvTried[b], vvTried'[b], ids, k)
  }

  /** Everything but the references, up to id k. */
  ghost predicate Partial(t: Tables, u: Tables, ids: seq<int>, k: nat) {
    && EntriesLoaded(t.mapInfo, u.mapInfo, ids, k)
    && IndexLoaded(t.mapInfo, u.mapAddr, u.vRandom, ids, k)
    && TriedLoaded(t.vvTried, u.vvTried, ids, k)
    && u.vvNew == seq(NEW_BUCKET_COUNT, _ => {})
    && u.nNew == t.nNew && u.nTried == t.nTried
  }

  /** ids names every entry once, and different entries have different addresses. */
  ghost predicate Names(m: Infos, ids: seq<int>) {
    && NoDuplicates(ids)
    && (forall i | 0 <= i < |ids| :: ids[i] in m)
    && (forall n | n in m :: n in ids)
    && (forall i, j | 0 <= i < j < |ids| :: m[ids[i]].Ip() != m[ids[j]].Ip())
  }

  lemma NamesAll(keying: Keying, t: Tables, news: seq<int>, trieds: seq<int>)
    requires Consistent(keying, t)
    requires Lists(news, NewIds(t.mapInfo, NoId)) && Lists(trieds, TriedIds(t.mapInfo))
    ensures Names(t.mapInfo, news + trieds)
  {
    Basics(keying, t, NoId, NoId);
    hide BucketsOk, IdsOk, RandomOk, NewOk, TriedOk, CountsOk;
    var m, ids := t.mapInfo, news + trieds;
    forall i | 0 <= i < |news|
      ensures ids[i] in m && !m[ids[i]].fInTried
    {
      assert news[i] in NewIds(m, NoId);
    }
    forall i | |news| <= i < |ids|
      ensures ids[i] in m && m[ids[i]].fInTried
    {
      assert trieds[i - |news|] in TriedIds(m);
    }
    forall n | n in m
      ensures n in ids
    {
      assert n in NewIds(m, NoId) || n in TriedIds(m);
    }
    forall i, j | 0 <= i < j < |ids|
      ensures m[ids[i]].Ip() != m[ids[j]].Ip()
    {
      var a, b := ids[i], ids[j];
      assert t.mapAddr[m[a].Ip()] == a && t.mapAddr[m[b].Ip()] == b;
    }
  }

  lemma EntriesStep(m: Infos, m': Infos, ids: seq<int>, k: nat, info: AddrInfo)
    requires EntriesLoaded(m, m', ids, k) && k < |ids| && info == Blank(m[ids[k]], k)
    ensures EntriesLoaded(m, m'[k := info], ids, k + 1)
  {
  }

  lemma IndexStep(m: Infos, mapAddr': map<nat, int>, vRandom': seq<int>, ids: seq<int>, k: nat)
    requires IndexLoaded(m, mapAddr', vRandom', ids, k) && k < |ids| && Names(m, ids)
    ensures IndexLoaded(m, mapAddr'[m[ids[k]].Ip() := k], vRandom' + [k], ids, k + 1)
  {
    var ip := m[ids[k]].Ip();
    var a' := mapAddr'[ip := k];
    forall i | 0 <= i < k + 1
      ensures m[ids[i]].Ip() in a' && a'[m[ids[i]].Ip()] == i
    {
      if i < k {
        assert m[ids[i]].Ip() != ip;
      }
    }
    forall a | a in a'
      ensures exists i :: 0 <= i < k + 1 && m[ids[i]].Ip() == a
    {
      if a == ip {
        assert m[ids[k]].Ip() == a;
      } else {
        var i :| 0 <= i < k && m[ids[i]].Ip() == a;
      }
    }
  }

  lemma TriedSkip(vvTried: seq<seq<int>>, vvTried': seq<seq<int>>, ids: seq<int>, k: nat)
    requires TriedLoaded(vvTried, vvTried', ids, k) && k < |ids|
    requires forall b | 0 <= b < |vvTried| :: ids[k] !in vvTried[b]
    ensures TriedLoaded(vvTried, vvTried', ids, k + 1)
  {
  }

  lemma TriedPut(vvTried: seq<seq<int>>, vvTried': seq<seq<int>>, ids: seq<int>, k: nat, b: nat)
    requires TriedLoaded(vvTried, vvTried', ids, k) && k < |ids| && b < |vvTried|
    requires forall c | 0 <= c < |vvTried| :: ids[k] in vvTried[c] <==> c == b
    ensures TriedLoaded(vvTried, vvTried'[b := vvTried'[b] + [k]], ids, k + 1)
  {
    var s', s'' := vvTried'[b], vvTried'[b] + [k];
    forall i | 0 <= i < k + 1 && ids[i] in vvTried[b]
      ensures i in s''
    {
      if i < k {
        assert i in s';
      } else {
        assert s''[|s'|] == k;
      }
    }
  }

  /** The ids that a list of numbers stands for. */
  ghost function Image(s: seq<int>, ids: seq<int>): set<int>
    requires forall j | 0 <= j < |s| :: 0 <= s[j] < |ids|
  {
    if s == [] then {} else Image(s[..|s| - 1], ids) + {ids[s[|s| - 1]]}
  }

  lemma {:induction false} ImageMember(s: seq<int>, ids: seq<int>, n: int)
    requires forall j | 0 <= j < |s| :: 0 <= s[j] < |ids|
    requires n in Image(s, ids)
    ensures exists j :: 0 <= j < |s| && ids[s[j]] == n
  {
    var l := |s| - 1;
    if n == ids[s[l]] {
    } else {
      ImageMember(s[..l], ids, n);
      var j :| 0 <= j < l && ids[s[..l][j]] == n;
      assert ids[s[j]] == n;
    }
  }

  lemma {:induction false} ImageSize(s: seq<int>, ids: seq<int>)
    requires NoDuplicates(s) && NoDuplicates(ids) && forall j | 0 <= j < |s| :: 0 <= s[j] < |ids|
    ensures |Image(s, ids)| == |s|
  {
    if s != [] {
      var l := |s| - 1;
      ImageSize(s[..l], ids);
      NotInImage(s[..l], s[l], ids);
    }
  }

  lemma NotInImage(s: seq<int>, last: int, ids: seq<int>)
    requires NoDuplicates(ids) && last !in s && 0 <= last < |ids|
    requires forall j | 0 <= j < |s| :: 0 <= s[j] < |ids|
    ensures ids[last] !in Image(s, ids)
  {
    hide Image, NoDuplicates;
    if ids[last] in Image(s, ids) {
      ImageMember(s, ids, ids[last]);
      OtherIds(s, last, ids);
    }
  }

  lemma OtherIds(s: seq<int>, last: int, ids: seq<int>)
    requires NoDuplicates(ids) && last !in s && 0 <= last < |ids|
    requires forall j | 0 <= j < |s| :: 0 <= s[j] < |ids|
    ensures forall j | 0 <= j < |s| :: ids[s[j]] != ids[last]
  {
    assert forall j | 0 <= j < |s| :: s[j] in s;
  }

  lemma ImageSubset(s: seq<int>, ids: seq<int>, within: seq<int>)
    requires forall j | 0 <= j < |s| :: 0 <= s[j] < |ids| && ids[s[j]] in within
    ensures Image(s, ids) <= Elements(within)
  {
    forall n | n in Image(s, ids)
      ensures n in Elements(within)
    {
      ImageMember(s, ids, n);
    }
  }

  /** There is room for the next entry of a tried bucket, since the original holds it as well. */
  lemma RoomForNext(s: seq<int>, s': seq<int>, ids: seq<int>, k: nat)
    requires ListLoaded(s, s', ids, k) && k < |ids| && ids[k] in s && NoDuplicates(ids)
    ensures |s'| < |s|
  {
    var image := Image(s', ids);
    ImageSize(s', ids);
    ImageSubset(s', ids, s);
    if ids[k] in image {
      ImageMember(s', ids, ids[k]);
    }
    assert image + {ids[k]} <= Elements(s);
    SubsetSize(image + {ids[k]}, Elements(s));
    ListSize(s);
  }

  lemma FirstNone(keying: Keying, t: Tables, d: Disk, news: seq<int>, trieds: seq<int>)
    requires Consistent(keying, t) && Saves(keying, t, d, news, trieds)
    ensures Partial(t, Cleared(d), news + trieds, 0)
  {
    var m, ids := t.mapInfo, news + trieds;
    forall i | 0 <= i < |ids|
      ensures ids[i] in m
    {
      assert if i < |news| then news[i] in m else trieds[i - |news|] in m;
    }
    hide BucketsOk, IdsOk, RandomOk, AddrOk, NewOk, TriedOk, CountsOk;
    var empty := Cleared(d).vvTried;
    assert forall b | 0 <= b < |t.vvTried| :: empty[b] == [];
  }

  lemma NewStep(t: Tables, u: Tables, ids: seq<int>, k: nat, e: Entry)
    requires Partial(t, u, ids, k) && k < |ids| && Names(t.mapInfo, ids)
    requires e == ToEntry(t.mapInfo[ids[k]]) && !t.mapInfo[ids[k]].fInTried
    requires forall b | 0 <= b < |t.vvTried| :: ids[k] !in t.vvTried[b]
    ensures Partial(t, LoadNew(u, k, e), ids, k + 1)
  {
    var info := FromEntry(e).(nRandomPos := |u.vRandom|);
    assert info == Blank(t.mapInfo[ids[k]], k);
    hide EntriesLoaded, TriedLoaded, Names;
    EntriesStep(t.mapInfo, u.mapInfo, ids, k, info);
    IndexStep(t.mapInfo, u.mapAddr, u.vRandom, ids, k);
    hide IndexLoaded;
    TriedSkip(t.vvTried, u.vvTried, ids, k);
  }

  lemma TriedStep(keying: Keying, t: Tables, u: Tables, ids: seq<int>, k: nat, e: Entry)
    requires Partial(t, u, ids, k) && k < |ids| && Names(t.mapInfo, ids) && u.nIdCount == k
    requires e == ToEntry(t.mapInfo[ids[k]]) && t.mapInfo[ids[k]].fInTried
    requires |t.vvTried| == TRIED_BUCKET_COUNT
    requires var b := GetTriedBucket(keying, e.addr.service);
             && |t.vvTried[b]| <= TRIED_BUCKET_SIZE
             && forall c | 0 <= c < |t.vvTried| :: ids[k] in t.vvTried[c] <==> c == b
    ensures Partial(t, LoadTried(keying, u, e), ids, k + 1)
    ensures LoadTried(keying, u, e).nIdCount == k + 1
  {
    hide GetTriedBucket;
    var info := FromEntry(e).(nRandomPos := |u.vRandom|, fInTried := true);
    assert info == Blank(t.mapInfo[ids[k]], k);
    var b := GetTriedBucket(keying, e.addr.service);
    assert ListLoaded(t.vvTried[b], u.vvTried[b], ids, k);
    RoomForNext(t.vvTried[b], u.vvTried[b], ids, k);
    hide EntriesLoaded, TriedLoaded, Names;
    EntriesStep(t.mapInfo, u.mapInfo, ids, k, info);
    IndexStep(t.mapInfo, u.mapAddr, u.vRandom, ids, k);
    hide IndexLoaded;
    TriedPut(t.vvTried, u.vvTried, ids, k, b);
  }

  lemma WhereTried(keying: Keying, t: Tables, n: int)
    requires Consistent(keying, t) && n in t.mapInfo
    ensures forall c | 0 <= c < |t.vvTried| ::
      |t.vvTried[c]| <= TRIED_BUCKET_SIZE
      && (n in t.vvTried[c] <==> t.mapInfo[n].fInTried && c == GetTriedBucket(keying, t.mapInfo[n].addr.service))
  {
    hide GetTriedBucket;
    forall c | 0 <= c < |t.vvTried| && n in t.vvTried[c]
      ensures t.mapInfo[n].fInTried && c == GetTriedBucket(keying, t.mapInfo[n].addr.service)
    {
      var i :| 0 <= i < |t.vvTried[c]| && t.vvTried[c][i] == n;
    }
  }

  lemma {:induction false} NewsLoaded(keying: Keying, t: Tables, d: Disk, news: seq<int>, trieds: seq<int>, k: nat)
    requires Consistent(keying, t) && Saves(keying, t, d, news, trieds) && k <= |news|
    ensures Partial(t, LoadNews(keying, d, k), news + trieds, k)
  {
    hide Consistent, Partial, Names, Lists;
    if k == 0 {
      FirstNone(keying, t, d, news, trieds);
    } else {
      NewsLoaded(keying, t, d, news, trieds, k - 1);
      NamesAll(keying, t, news, trieds);
      ListedNew(t.mapInfo, news, k - 1);
      WhereTried(keying, t, news[k - 1]);
      NewStep(t, LoadNews(keying, d, k - 1), news + trieds, k - 1, d.news[k - 1]);
    }
  }

  lemma ListedNew(m: Infos, news: seq<int>, i: nat)
    requires Lists(news, NewIds(m, NoId)) && i < |news|
    ensures news[i] in m && !m[news[i]].fInTried
  {
    assert news[i] in NewIds(m, NoId);
  }

  lemma ListedTried(m: Infos, trieds: seq<int>, i: nat)
    requires Lists(trieds, TriedIds(m)) && i < |trieds|
    ensures trieds[i] in m && m[trieds[i]].fInTried
  {
    assert trieds[i] in TriedIds(m);
  }

  lemma {:induction false} TriedsLoaded(keying: Keying, t: Tables, d: Disk, news: seq<int>, trieds: seq<int>, k: nat)
    requires Consistent(keying, t) && Saves(keying, t, d, news, trieds) && k <= |trieds|
    ensures Partial(t, LoadTrieds(keying, d, k), news + trieds, |news| + k)
    ensures LoadTrieds(keying, d, k).nIdCount == |news| + k
  {
    hide Consistent, Partial, Names, Lists, GetTriedBucket, LoadTried;
    if k == 0 {
      NewsLoaded(keying, t, d, news, trieds, |news|);
      PartialCount(t, LoadNews(keying, d, |news|), news + trieds, |news|, d.nNew);
    } else {
      TriedsLoaded(keying, t, d, news, trieds, k - 1);
      NamesAll(keying, t, news, trieds);
      ListedTried(t.mapInfo, trieds, k - 1);
      WhereTried(keying, t, trieds[k - 1]);
      BucketCounts(keying, t);
      TriedStep(keying, t, LoadTrieds(keying, d, k - 1), news + trieds, |news| + k - 1, d.trieds[k - 1]);
    }
  }

  lemma PartialCount(t: Tables, u: Tables, ids: seq<int>, k: nat, nIdCount: int)
    requires Partial(t, u, ids, k)
    ensures Partial(t, u.(nIdCount := nIdCount), ids, k)
  {
  }

  lemma BucketCounts(keying: Keying, t: Tables)
    requires Consistent(keying, t)
    ensures |t.vvTried| == TRIED_BUCKET_COUNT && |t.vvNew| == NEW_BUCKET_COUNT
  {
  }

  // ---------- The references ----------

  /** The references from the first b buckets, and those of bucket b given by refs, have been loaded. */
  ghost predicate RefsLoaded(t: Tables, u: Tables, ids: seq<int>, b: nat, refs: seq<int>) {
    && b <= |t.vvNew| == |u.vvNew|
    && (forall i | 0 <= i < |ids| :: ids[i] in t.mapInfo)
    && (forall i :: i in u.mapInfo <==> 0 <= i < |ids|)
    && (forall i | 0 <= i < |ids| ::
      u.mapInfo[i] == Renumbered(t.mapInfo[ids[i]], i).(nRefCount := Refs(t.vvNew[..b], ids[i]) + Count(refs, i)))
    && (forall c | 0 <= c < b :: SameBucket(t.vvNew[c], u.vvNew[c], ids))
    && (b < |t.vvNew| ==> u.vvNew[b] == Elements(refs))
    && (forall c | b < c < |t.vvNew| :: u.vvNew[c] == {})
  }

  function Count(refs: seq<int>, i: int): nat {
    if i in refs then 1 else 0
  }

  lemma {:induction false} RefsMonotone(vvNew: seq<set<int>>, b: nat, n: int)
    requires b <= |vvNew|
    ensures Refs(vvNew[..b], n) <= Refs(vvNew, n)
  {
    if b < |vvNew| {
      var k := |vvNew| - 1;
      assert vvNew[..k][..b] == vvNew[..b];
      RefsMonotone(vvNew[..k], b, n);
    } else {
      assert vvNew[..b] == vvNew;
    }
  }

  /** The stored references never exceed the limit, so none is dropped. */
  lemma RefStep(t: Tables, u: Tables, ids: seq<int>, b: nat, refs: seq<int>, n: int)
    requires RefsLoaded(t, u, ids, b, refs) && b < |t.vvNew| && n !in refs
    requires 0 <= n < |ids| && ids[n] in t.vvNew[b] && Refs(t.vvNew, ids[n]) <= NEW_BUCKETS_PER_ADDRESS
    ensures RefsLoaded(t, LoadRef(u, b, n), ids, b, refs + [n])
    ensures LoadRef(u, b, n) == u.(mapInfo := LoadRef(u, b, n).mapInfo, vvNew := LoadRef(u, b, n).vvNew)
  {
    RefsMonotone(t.vvNew, b + 1, ids[n]);
    assert t.vvNew[..b + 1][..b] == t.vvNew[..b];
    assert u.mapInfo[n].nRefCount < NEW_BUCKETS_PER_ADDRESS;
    assert Elements(refs + [n]) == Elements(refs) + {n};
    hide Refs;
  }

  lemma {:induction false} BucketLoaded(t: Tables, u: Tables, ids: seq<int>, b: nat, refs: seq<int>)
    requires RefsLoaded(t, u, ids, b, []) && b < |t.vvNew| && NoDuplicates(refs)
    requires forall i | 0 <= i < |refs| :: 0 <= refs[i] < |ids| && ids[refs[i]] in t.vvNew[b]
    requires forall i | 0 <= i < |ids| :: Refs(t.vvNew, ids[i]) <= NEW_BUCKETS_PER_ADDRESS
    ensures RefsLoaded(t, LoadRefs(u, b, refs), ids, b, refs)
    ensures LoadRefs(u, b, refs) == u.(mapInfo := LoadRefs(u, b, refs).mapInfo, vvNew := LoadRefs(u, b, refs).vvNew)
  {
    if refs != [] {
      var k := |refs| - 1;
      assert refs[..k] + [refs[k]] == refs;
      BucketLoaded(t, u, ids, b, refs[..k]);
      assert refs[k] !in refs[..k];
      hide RefsLoaded, LoadRef;
      RefStep(t, LoadRefs(u, b, refs[..k]), ids, b, refs[..k], refs[k]);
    }
  }

  /** A whole bucket's references loaded: on to the next one. */
  lemma BucketDone(t: Tables, u: Tables, ids: seq<int>, b: nat, refs: seq<int>)
    requires RefsLoaded(t, u, ids, b, refs) && b < |t.vvNew| && NoDuplicates(ids)
    requires forall i | 0 <= i < |refs| :: 0 <= refs[i] < |ids| && ids[refs[i]] in t.vvNew[b]
    requires forall n | n in t.vvNew[b] :: exists i :: 0 <= i < |refs| && 0 <= refs[i] < |ids| && ids[refs[i]] == n
    ensures RefsLoaded(t, u, ids, b + 1, [])
  {
    assert t.vvNew[..b + 1][..b] == t.vvNew[..b];
    forall i | 0 <= i < |ids|
      ensures ids[i] in t.vvNew[b] <==> i in refs
    {
      if ids[i] in t.vvNew[b] {
        var j :| 0 <= j < |refs| && 0 <= refs[j] < |ids| && ids[refs[j]] == ids[i];
        assert refs[j] == i;
      }
    }
    assert SameBucket(t.vvNew[b], u.vvNew[b], ids);
    assert Elements([]) == {};
  }

  lemma {:induction false} BucketsLoaded(keying: Keying, t: Tables, d: Disk, news: seq<int>, trieds: seq<int>, b: nat)
    requires Consistent(keying, t) && Saves(keying, t, d, news, trieds) && b <= |d.buckets|
    ensures RefsLoaded(t, LoadBuckets(keying, d, b), news + trieds, b, [])
    ensures var u, v := LoadTrieds(keying, d, |d.trieds|), LoadBuckets(keying, d, b);
            v == u.(mapInfo := v.mapInfo, vvNew := v.vvNew)
  {
    hide Consistent, RefsLoaded, Lists, Refs, LoadRefs, Indexes, Partial, LoadTrieds;
    var ids := news + trieds;
    if b == 0 {
      TriedsLoaded(keying, t, d, news, trieds, |trieds|);
      NoRefsYet(t, LoadTrieds(keying, d, |d.trieds|), ids);
    } else {
      BucketsLoaded(keying, t, d, news, trieds, b - 1);
      NamesAll(keying, t, news, trieds);
      RefsLimited(keying, t, ids);
      RefsInIds(t, d, news, trieds, b - 1);
      hide Names;
      BucketLoaded(t, LoadBuckets(keying, d, b - 1), ids, b - 1, d.buckets[b - 1]);
      BucketDone(t, LoadBuckets(keying, d, b), ids, b - 1, d.buckets[b - 1]);
    }
  }

  lemma NoRefsYet(t: Tables, u: Tables, ids: seq<int>)
    requires Partial(t, u, ids, |ids|) && |t.vvNew| == NEW_BUCKET_COUNT
    ensures RefsLoaded(t, u, ids, 0, [])
  {
    assert t.vvNew[..0] == [] && Elements([]) == {};
  }

  lemma RefsLimited(keying: Keying, t: Tables, ids: seq<int>)
    requires Consistent(keying, t) && Names(t.mapInfo, ids)
    ensures forall i | 0 <= i < |ids| :: Refs(t.vvNew, ids[i]) <= NEW_BUCKETS_PER_ADDRESS
  {
    hide BucketsOk, IdsOk, RandomOk, AddrOk, TriedOk, CountsOk, Refs;
    forall i | 0 <= i < |ids|
      ensures Refs(t.vvNew, ids[i]) <= NEW_BUCKETS_PER_ADDRESS
    {
      var n := ids[i];
      assert n in t.mapInfo;
      Basics(keying, t, NoId, NoId);
      assert t.mapInfo[n].nRefCount == Refs(t.vvNew, n);
    }
  }

  lemma RefsInIds(t: Tables, d: Disk, news: seq<int>, trieds: seq<int>, b: nat)
    requires b < |t.vvNew| && b < |d.buckets| && Indexes(d.buckets[b], t.vvNew[b], news)
    ensures var ids, refs := news + trieds, d.buckets[b];
            && NoDuplicates(refs)
            && (forall i | 0 <= i < |refs| :: 0 <= refs[i] < |ids| && ids[refs[i]] in t.vvNew[b])
            && (forall n | n in t.vvNew[b] :: exists i :: 0 <= i < |refs| && 0 <= refs[i] < |ids| && ids[refs[i]] == n)
  {
    var ids, refs := news + trieds, d.buckets[b];
    forall n | n in t.vvNew[b]
      ensures exists i :: 0 <= i < |refs| && 0 <= refs[i] < |ids| && ids[refs[i]] == n
    {
      var i :| 0 <= i < |refs| && 0 <= refs[i] < |news| && news[refs[i]] == n;
      assert ids[refs[i]] == n;
    }
  }

  // ---------- What is isomorphic to a consistent manager is consistent ----------

  /** Sets that correspond under a numbering have the same size. */
  lemma {:induction false} SameSize(s: set<int>, s': set<int>, ids: seq<int>)
    requires NoDuplicates(ids) && SameBucket(s, s', ids) && forall n | n in s :: n in ids
    ensures |s'| == |s|
    decreases |s|
  {
    if |s| != 0 {
      var n: int := Pick(s);
      var i :| 0 <= i < |ids| && ids[i] == n;
      SameSize(s - {n}, s' - {i}, ids);
    } else {
      if |s'| != 0 {
        var i: int := Pick(s');
      }
    }
  }

  ghost function Pick<T(!new)>(s: set<T>): (x: T)
    requires |s| != 0
    ensures x in s
  {
    var x :| x in s;
    x
  }

  lemma ListNoLarger(s: seq<int>, s': seq<int>, ids: seq<int>)
    requires NoDuplicates(ids) && SameList(s, s', ids)
    ensures |s'| <= |s|
  {
    ImageSize(s', ids);
    ImageSubset(s', ids, s);
    SubsetSize(Image(s', ids), Elements(s));
    ListSize(s);
  }

  lemma IsoBuckets(t: Tables, v: Tables, ids: seq<int>)
    requires Isomorphic(t, v, ids) && BucketsOk(t.vvNew, t.vvTried)
    requires forall b, n | 0 <= b < |t.vvNew| && n in t.vvNew[b] :: n in t.mapInfo
    ensures BucketsOk(v.vvNew, v.vvTried)
  {
    forall b | 0 <= b < |v.vvNew|
      ensures |v.vvNew[b]| <= NEW_BUCKET_SIZE
    {
      SameSize(t.vvNew[b], v.vvNew[b], ids);
    }
    forall k | 0 <= k < |v.vvTried|
      ensures |v.vvTried[k]| <= TRIED_BUCKET_SIZE
    {
      ListNoLarger(t.vvTried[k], v.vvTried[k], ids);
    }
  }

  ghost function Below(n: nat): (s: set<int>)
    ensures |s| == n && forall i :: i in s <==> 0 <= i < n
  {
    if n == 0 then {} else Below(n - 1) + {n - 1}
  }

  lemma IsoRandom(t: Tables, v: Tables, ids: seq<int>)
    requires Isomorphic(t, v, ids)
    ensures RandomOk(v.mapInfo, v.vRandom)
  {
    hide SameBucket, SameList;
    RandomFromRange(v.mapInfo, v.vRandom, |ids|);
  }

  lemma RandomFromRange(m: Infos, vRandom: seq<int>, n: nat)
    requires forall i :: i in m <==> 0 <= i < n
    requires |vRandom| == n && forall i | 0 <= i < n :: vRandom[i] == i && m[i].nRandomPos == i
    ensures RandomOk(m, vRandom)
  {
    assert m.Keys == Below(n);
    assert |m| == |m.Keys|;
  }

  lemma IsoAddr(t: Tables, v: Tables, ids: seq<int>)
    requires Isomorphic(t, v, ids) && AddrOk(t.mapInfo, t.mapAddr)
    ensures AddrOk(v.mapInfo, v.mapAddr)
  {
    hide SameBucket, SameList;
    forall a | a in v.mapAddr
      ensures v.mapAddr[a] in v.mapInfo && v.mapInfo[v.mapAddr[a]].Ip() == a
    {
      var n := t.mapAddr[a];
      assert n in t.mapInfo && t.mapInfo[n].Ip() == a;
      var i :| 0 <= i < |ids| && ids[i] == n;
      assert v.mapAddr[a] == i;
    }
  }

  lemma {:induction false} IsoRefs(vvNew: seq<set<int>>, vvNew': seq<set<int>>, ids: seq<int>, i: nat)
    requires |vvNew'| == |vvNew| && i < |ids|
    requires forall b | 0 <= b < |vvNew| :: SameBucket(vvNew[b], vvNew'[b], ids)
    ensures Refs(vvNew', i) == Refs(vvNew, ids[i])
  {
    if vvNew != [] {
      var k := |vvNew| - 1;
      assert SameBucket(vvNew[k], vvNew'[k], ids);
      IsoRefs(vvNew[..k], vvNew'[..k], ids, i);
    }
  }

  lemma IsoNew(t: Tables, v: Tables, ids: seq<int>)
    requires Isomorphic(t, v, ids) && NewOk(t.mapInfo, t.vvNew, NoId, NoId) && NoId !in t.mapInfo
    ensures NewOk(v.mapInfo, v.vvNew, NoId, NoId)
  {
    hide SameList;
    forall i | i in v.mapInfo
      ensures v.mapInfo[i].nRefCount == Refs(v.vvNew, i)
      ensures if v.mapInfo[i].fInTried then v.mapInfo[i].nRefCount == 0
              else 1 <= v.mapInfo[i].nRefCount <= NEW_BUCKETS_PER_ADDRESS
    {
      IsoRefs(t.vvNew, v.vvNew, ids, i);
      var n := ids[i];
      assert t.mapInfo[n].nRefCount == Refs(t.vvNew, n);
    }
    hide Refs;
    forall b, i | 0 <= b < |v.vvNew| && i in v.vvNew[b]
      ensures i in v.mapInfo
    {
      assert SameBucket(t.vvNew[b], v.vvNew[b], ids);
    }
  }

  lemma IsoTried(keying: Keying, t: Tables, v: Tables, ids: seq<int>)
    requires |t.vvTried| == TRIED_BUCKET_COUNT
    requires Isomorphic(t, v, ids) && TriedOk(keying, t.mapInfo, t.vvTried)
    ensures TriedOk(keying, v.mapInfo, v.vvTried)
  {
    hide SameBucket, GetTriedBucket;
    forall k, j | 0 <= k < |v.vvTried| && 0 <= j < |v.vvTried[k]|
      ensures var i := v.vvTried[k][j];
              i in v.mapInfo && v.mapInfo[i].fInTried && GetTriedBucket(keying, v.mapInfo[i].addr.service) == k
    {
      assert SameList(t.vvTried[k], v.vvTried[k], ids);
      var i := v.vvTried[k][j];
      assert ids[i] in t.vvTried[k];
      var l :| 0 <= l < |t.vvTried[k]| && t.vvTried[k][l] == ids[i];
      assert t.mapInfo[t.vvTried[k][l]].fInTried;
    }
    forall k | 0 <= k < |v.vvTried|
      ensures NoDuplicates(v.vvTried[k])
    {
      assert SameList(t.vvTried[k], v.vvTried[k], ids);
    }
    forall i | i in v.mapInfo && v.mapInfo[i].fInTried
      ensures i in v.vvTried[GetTriedBucket(keying, v.mapInfo[i].addr.service)]
    {
      var n := ids[i];
      var k := GetTriedBucket(keying, t.mapInfo[n].addr.service);
      assert n in t.vvTried[k] && SameList(t.vvTried[k], v.vvTried[k], ids);
    }
  }

  lemma IsoCounts(t: Tables, v: Tables, ids: seq<int>)
    requires Isomorphic(t, v, ids) && CountsOk(t.mapInfo, t.nNew, t.nTried, NoId) && NoId !in t.mapInfo
    ensures CountsOk(v.mapInfo, v.nNew, v.nTried, NoId)
  {
    assert SameBucket(NewIds(t.mapInfo, NoId), NewIds(v.mapInfo, NoId), ids);
    assert SameBucket(TriedIds(t.mapInfo), TriedIds(v.mapInfo), ids);
    hide SameList;
    SameSize(NewIds(t.mapInfo, NoId), NewIds(v.mapInfo, NoId), ids);
    SameSize(TriedIds(t.mapInfo), TriedIds(v.mapInfo), ids);
  }

  lemma IsomorphicConsistent(keying: Keying, t: Tables, v: Tables, ids: seq<int>)
    requires Consistent(keying, t) && Isomorphic(t, v, ids)
    ensures Consistent(keying, v)
  {
    hide BucketsOk, RandomOk, AddrOk, TriedOk, CountsOk, Isomorphic;
    Basics(keying, t, NoId, NoId);
    InBuckets(t.mapInfo, t.vvNew);
    hide NewOk;
    IsoBuckets(t, v, ids);
    IsoRandom(t, v, ids);
    IsoAddr(t, v, ids);
    IsoNew(t, v, ids);
    IsoTried(keying, t, v, ids);
    IsoCounts(t, v, ids);
    IsoIds(t, v, ids);
  }

  lemma InBuckets(m: Infos, vvNew: seq<set<int>>)
    requires NewOk(m, vvNew, NoId, NoId)
    ensures forall b, n | 0 <= b < |vvNew| && n in vvNew[b] :: n in m
  {
  }

  lemma IsoIds(t: Tables, v: Tables, ids: seq<int>)
    requires Isomorphic(t, v, ids)
    ensures IdsOk(v.mapInfo, v.nIdCount)
    ensures |v.vvNew| == |t.vvNew| && |v.vvTried| == |t.vvTried|
  {
  }

  // ---------- The round trip ----------

  lemma AllRefsLoaded(keying: Keying, t: Tables, u: Tables, ids: seq<int>)
    requires Consistent(keying, t) && RefsLoaded(t, u, ids, |t.vvNew|, [])
    ensures forall i | 0 <= i < |ids| :: ids[i] in t.mapInfo && u.mapInfo[i] == Renumbered(t.mapInfo[ids[i]], i)
  {
    assert t.vvNew[..|t.vvNew|] == t.vvNew;
    hide BucketsOk, IdsOk, RandomOk, AddrOk, TriedOk, CountsOk, Refs;
    Basics(keying, t, NoId, NoId);
    forall i | 0 <= i < |ids|
      ensures ids[i] in t.mapInfo && u.mapInfo[i] == Renumbered(t.mapInfo[ids[i]], i)
    {
      var n := ids[i];
      assert t.mapInfo[n].nRefCount == Refs(t.vvNew, n);
    }
  }

  /** The conditions on times survive as well: only the last try is forgotten. */
  lemma IsomorphicTimes(t: Tables, v: Tables, ids: seq<int>)
    requires Isomorphic(t, v, ids) && TimesOk(t)
    ensures TimesOk(v)
  {
    forall i | i in v.mapInfo
      ensures v.mapInfo[i].nLastTry == 0 && 0 <= v.mapInfo[i].nLastSuccess
      ensures v.mapInfo[i].fInTried ==> v.mapInfo[i].nLastSuccess != 0
    {
      var n := ids[i];
      assert n in t.mapInfo && v.mapInfo[i] == Renumbered(t.mapInfo[n], i);
      assert 0 <= t.mapInfo[n].nLastSuccess && (t.mapInfo[n].fInTried ==> t.mapInfo[n].nLastSuccess != 0);
    }
  }

  /** Loading what was saved loses no entry and gives the same manager up to renaming. */
  lemma RoundTrip(keying: Keying, t: Tables, d: Disk, news: seq<int>, trieds: seq<int>)
    requires Consistent(keying, t) && Saves(keying, t, d, news, trieds)
    ensures Isomorphic(t, Loaded(keying, d), news + trieds)
    ensures Consistent(keying, Loaded(keying, d))
    ensures TimesOk(t) ==> TimesOk(Loaded(keying, d))
  {
    hide Consistent, RefsLoaded, Lists, Indexes, Partial, LoadTrieds, LoadBuckets, Isomorphic, Names, Refs;
    var ids := news + trieds;
    var u, v := LoadTrieds(keying, d, |d.trieds|), Loaded(keying, d);
    TriedsLoaded(keying, t, d, news, trieds, |trieds|);
    BucketsLoaded(keying, t, d, news, trieds, |d.buckets|);
    AllRefsLoaded(keying, t, v, ids);
    NamesAll(keying, t, news, trieds);
    FromParts(keying, t, u, v, ids);
    IsomorphicConsistent(keying, t, v, ids);
    if TimesOk(t) {
      IsomorphicTimes(t, Loaded(keying, d), news + trieds);
    }
  }

  lemma FromParts(keying: Keying, t: Tables, u: Tables, v: Tables, ids: seq<int>)
    requires Consistent(keying, t) && Names(t.mapInfo, ids)
    requires Partial(t, u, ids, |ids|) && u.nIdCount == |ids|
    requires v == u.(mapInfo := v.mapInfo, vvNew := v.vvNew) && RefsLoaded(t, v, ids, |t.vvNew|, [])
    requires forall i | 0 <= i < |ids| :: ids[i] in t.mapInfo && v.mapInfo[i] == Renumbered(t.mapInfo[ids[i]], i)
    ensures Isomorphic(t, v, ids)
  {
    hide BucketsOk, IdsOk, RandomOk, NewOk, TriedOk, CountsOk, Refs, SameBucket;
    forall b | 0 <= b < |t.vvTried|
      ensures SameList(t.vvTried[b], v.vvTried[b], ids)
    {
      assert ListLoaded(t.vvTried[b], v.vvTried[b], ids, |ids|);
    }
    forall a | a in v.mapAddr
      ensures a in t.mapAddr
    {
      var i :| 0 <= i < |ids| && t.mapInfo[ids[i]].Ip() == a;
    }
  }
}

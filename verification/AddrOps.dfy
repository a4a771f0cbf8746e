/** The elementary changes of the address manager's tables, as functions, and what each does to
    the invariant (src/addrman.cpp:93-310). A change is first shown to keep each part of the
    invariant it touches; the lemmas about the whole invariant only put the parts together. */
module AddrOps {
  import opened AddrTables

  type Infos = map<int, AddrInfo>

  // ---------- Parts of the invariant kept by changes they do not look at ----------

  predicate SameServices(m: Infos, m': Infos) {
    m.Keys == m'.Keys && forall n | n in m :: m[n].addr.service == m'[n].addr.service
  }

  predicate SameTried(m: Infos, m': Infos) {
    m.Keys == m'.Keys && forall n | n in m :: m[n].fInTried == m'[n].fInTried
  }

  predicate SamePositions(m: Infos, m': Infos) {
    m.Keys == m'.Keys && forall n | n in m :: m[n].nRandomPos == m'[n].nRandomPos
  }

  predicate SameRefs(m: Infos, m': Infos) {
    m.Keys == m'.Keys && forall n | n in m :: m[n].nRefCount == m'[n].nRefCount
  }

  lemma KeepIds(m: Infos, m': Infos, nIdCount: int)
    requires IdsOk(m, nIdCount) && m'.Keys <= m.Keys
    ensures IdsOk(m', nIdCount)
  {
    forall n | n in m'
      ensures 0 <= n < nIdCount
    {
      assert n in m.Keys;
    }
  }

  lemma KeepRandom(m: Infos, m': Infos, vRandom: seq<int>)
    requires RandomOk(m, vRandom) && SamePositions(m, m')
    ensures RandomOk(m', vRandom)
  {
    assert |m| == |m.Keys| && |m'| == |m'.Keys|;
    forall i | 0 <= i < |vRandom|
      ensures vRandom[i] in m' && m'[vRandom[i]].nRandomPos == i
    {
      var n := vRandom[i];
      assert m'[n].nRandomPos == m[n].nRandomPos;
    }
  }

  lemma KeepAddr(m: Infos, m': Infos, mapAddr: map<nat, int>)
    requires AddrOk(m, mapAddr) && SameServices(m, m')
    ensures AddrOk(m', mapAddr)
  {
  }

  lemma KeepTried(keying: Keying, m: Infos, m': Infos, vvTried: seq<seq<int>>)
    requires |vvTried| == TRIED_BUCKET_COUNT && TriedOk(keying, m, vvTried)
    requires SameServices(m, m') && SameTried(m, m')
    ensures TriedOk(keying, m', vvTried)
  {
    hide GetTriedBucket;
    forall k, i | 0 <= k < |vvTried| && 0 <= i < |vvTried[k]|
      ensures vvTried[k][i] in m' && m'[vvTried[k][i]].fInTried
      ensures GetTriedBucket(keying, m'[vvTried[k][i]].addr.service) == k
    {
      var n := vvTried[k][i];
      assert m'[n].fInTried == m[n].fInTried && m'[n].addr.service == m[n].addr.service;
    }
  }

  lemma KeepNew(m: Infos, m': Infos, vvNew: seq<set<int>>, pending: int, limbo: int)
    requires NewOk(m, vvNew, pending, limbo) && SameTried(m, m') && SameRefs(m, m')
    ensures NewOk(m', vvNew, pending, limbo)
  {
    hide Refs;
  }

  lemma TriedIdsSame(m: Infos, m': Infos)
    requires SameTried(m, m')
    ensures TriedIds(m) == TriedIds(m')
  {
    forall n
      ensures n in TriedIds(m) <==> n in TriedIds(m')
    {
      assert n in m.Keys <==> n in m'.Keys;
    }
  }

  lemma KeepCounts(m: Infos, m': Infos, nNew: int, nTried: int, limbo: int)
    requires CountsOk(m, nNew, nTried, limbo) && SameTried(m, m')
    ensures CountsOk(m', nNew, nTried, limbo)
  {
    assert NewIds(m, limbo) == NewIds(m', limbo);
    TriedIdsSame(m, m');
  }

  /** Simple consequences of the whole invariant. */
  lemma Basics(keying: Keying, t: Tables, pending: int, limbo: int)
    requires Inv(keying, t, pending, limbo)
    ensures NoId !in t.mapInfo && t.nIdCount !in t.mapInfo
    ensures limbo in t.mapInfo ==> !t.mapInfo[limbo].fInTried && t.mapInfo[limbo].nRefCount == 0
    ensures limbo in t.mapInfo && limbo != pending ==> forall b | 0 <= b < |t.vvNew| :: limbo !in t.vvNew[b]
  {
    RefsZero(t.vvNew, limbo);
    hide Refs;
  }

  function SetInfo(t: Tables, n: int, info: AddrInfo): Tables {
    t.(mapInfo := t.mapInfo[n := info])
  }

  /** Same entry as far as the tables are concerned. */
  predicate Alike(a: AddrInfo, b: AddrInfo) {
    a.addr.service == b.addr.service && a.nRefCount == b.nRefCount && a.fInTried == b.fInTried
  }

  lemma SetInfoKeeps(keying: Keying, t: Tables, n: int, info: AddrInfo, pending: int, limbo: int)
    requires Inv(keying, t, pending, limbo) && n in t.mapInfo
    requires Alike(t.mapInfo[n], info) && t.mapInfo[n].nRandomPos == info.nRandomPos
    ensures Inv(keying, SetInfo(t, n, info), pending, limbo)
  {
    hide BucketsOk, IdsOk, RandomOk, AddrOk, NewOk, TriedOk, CountsOk;
    var m' := t.mapInfo[n := info];
    KeepIds(t.mapInfo, m', t.nIdCount);
    KeepRandom(t.mapInfo, m', t.vRandom);
    KeepAddr(t.mapInfo, m', t.mapAddr);
    KeepTried(keying, t.mapInfo, m', t.vvTried);
    KeepNew(t.mapInfo, m', t.vvNew, pending, limbo);
    KeepCounts(t.mapInfo, m', t.nNew, t.nTried, limbo);
  }

  // ---------- vRandom ----------

  function SwapRandom(t: Tables, i: nat, j: nat): Tables
    requires RandomOk(t.mapInfo, t.vRandom) && i < |t.vRandom| && j < |t.vRandom|
  {
    if i == j then t
    else
      var id1, id2 := t.vRandom[i], t.vRandom[j];
      t.(mapInfo := t.mapInfo[id1 := t.mapInfo[id1].(nRandomPos := j)][id2 := t.mapInfo[id2].(nRandomPos := i)],
         vRandom := t.vRandom[i := id2][j := id1])
  }

  lemma SwapIsRandom(t: Tables, i: nat, j: nat)
    requires RandomOk(t.mapInfo, t.vRandom) && i < |t.vRandom| && j < |t.vRandom|
    ensures RandomOk(SwapRandom(t, i, j).mapInfo, SwapRandom(t, i, j).vRandom)
  {
    var s := SwapRandom(t, i, j);
    assert s.mapInfo.Keys == t.mapInfo.Keys;
    assert |s.mapInfo| == |s.mapInfo.Keys|;
  }

  lemma SwapRandomKeeps(keying: Keying, t: Tables, i: nat, j: nat, pending: int, limbo: int)
    requires Inv(keying, t, pending, limbo) && i < |t.vRandom| && j < |t.vRandom|
    ensures Inv(keying, SwapRandom(t, i, j), pending, limbo)
    ensures SameServices(t.mapInfo, SwapRandom(t, i, j).mapInfo)
    ensures SameTried(t.mapInfo, SwapRandom(t, i, j).mapInfo)
    ensures SameRefs(t.mapInfo, SwapRandom(t, i, j).mapInfo)
  {
    hide BucketsOk, IdsOk, RandomOk, AddrOk, NewOk, TriedOk, CountsOk;
    SwapIsRandom(t, i, j);
    SwapAlike(t, i, j);
    var m' := SwapRandom(t, i, j).mapInfo;
    KeepIds(t.mapInfo, m', t.nIdCount);
    KeepAddr(t.mapInfo, m', t.mapAddr);
    KeepTried(keying, t.mapInfo, m', t.vvTried);
    KeepNew(t.mapInfo, m', t.vvNew, pending, limbo);
    KeepCounts(t.mapInfo, m', t.nNew, t.nTried, limbo);
  }

  lemma SwapAlike(t: Tables, i: nat, j: nat)
    requires RandomOk(t.mapInfo, t.vRandom) && i < |t.vRandom| && j < |t.vRandom|
    ensures var m, m' := t.mapInfo, SwapRandom(t, i, j).mapInfo;
            SameServices(m, m') && SameTried(m, m') && SameRefs(m, m')
  {
    assert t.vRandom[i] in t.mapInfo && t.vRandom[j] in t.mapInfo;
    hide RandomOk;
    var s := SwapRandom(t, i, j);
    assert s.mapInfo.Keys == t.mapInfo.Keys;
  }

  // ---------- A new entry ----------

  function NewEntry(addr: Address, source: nat, pos: nat): AddrInfo {
    AddrInfo(addr, source, 0, 0, 0, 0, false, pos)
  }

  function Create(t: Tables, addr: Address, source: nat): Tables {
    t.(nIdCount := t.nIdCount + 1,
       mapInfo := t.mapInfo[t.nIdCount := NewEntry(addr, source, |t.vRandom|)],
       mapAddr := t.mapAddr[addr.service.ip := t.nIdCount],
       vRandom := t.vRandom + [t.nIdCount])
  }

  lemma CreateIds(m: Infos, nIdCount: int, info: AddrInfo)
    requires IdsOk(m, nIdCount)
    ensures IdsOk(m[nIdCount := info], nIdCount + 1) && nIdCount != NoId
  {
  }

  lemma CreateRandom(m: Infos, vRandom: seq<int>, id: int, info: AddrInfo)
    requires RandomOk(m, vRandom) && id !in m && info.nRandomPos == |vRandom|
    ensures RandomOk(m[id := info], vRandom + [id])
  {
    assert m[id := info].Keys == m.Keys + {id};
  }

  lemma CreateAddr(m: Infos, mapAddr: map<nat, int>, id: int, info: AddrInfo)
    requires AddrOk(m, mapAddr) && id !in m && info.Ip() !in mapAddr
    ensures AddrOk(m[id := info], mapAddr[info.Ip() := id])
  {
  }

  lemma CreateNew(m: Infos, vvNew: seq<set<int>>, id: int, info: AddrInfo)
    requires NewOk(m, vvNew, NoId, NoId) && id !in m && NoId !in m && id != NoId
    requires info.nRefCount == 0 && !info.fInTried
    ensures NewOk(m[id := info], vvNew, NoId, id)
  {
    RefsZero(vvNew, id);
    hide Refs;
  }

  lemma CreateTried(keying: Keying, m: Infos, vvTried: seq<seq<int>>, id: int, info: AddrInfo)
    requires |vvTried| == TRIED_BUCKET_COUNT && TriedOk(keying, m, vvTried) && id !in m && !info.fInTried
    ensures TriedOk(keying, m[id := info], vvTried)
  {
    hide GetTriedBucket;
  }

  lemma CreateCounts(m: Infos, nNew: int, nTried: int, id: int, info: AddrInfo)
    requires CountsOk(m, nNew, nTried, NoId) && id !in m && NoId !in m && !info.fInTried
    ensures CountsOk(m[id := info], nNew, nTried, id)
  {
    assert NewIds(m[id := info], id) == NewIds(m, NoId);
    assert TriedIds(m[id := info]) == TriedIds(m);
  }

  lemma CreateMakesLimbo(keying: Keying, t: Tables, addr: Address, source: nat)
    requires Consistent(keying, t) && addr.service.ip !in t.mapAddr
    ensures Inv(keying, Create(t, addr, source), NoId, t.nIdCount)
  {
    hide BucketsOk, IdsOk, RandomOk, AddrOk, NewOk, TriedOk, CountsOk;
    var id, info := t.nIdCount, NewEntry(addr, source, |t.vRandom|);
    Basics(keying, t, NoId, NoId);
    CreateIds(t.mapInfo, t.nIdCount, info);
    CreateRandom(t.mapInfo, t.vRandom, id, info);
    CreateAddr(t.mapInfo, t.mapAddr, id, info);
    CreateNew(t.mapInfo, t.vvNew, id, info);
    CreateTried(keying, t.mapInfo, t.vvTried, id, info);
    CreateCounts(t.mapInfo, t.nNew, t.nTried, id, info);
  }

  // ---------- Into a new bucket ----------

  /** The count of an entry about to be put in one more bucket. */
  function Pend(t: Tables, n: int): Tables
    requires n in t.mapInfo
  {
    SetInfo(t, n, t.mapInfo[n].(nRefCount := t.mapInfo[n].nRefCount + 1))
  }

  lemma PendCountsLimbo(m: Infos, m': Infos, nNew: int, nTried: int, n: int)
    requires CountsOk(m, nNew, nTried, n) && SameTried(m, m') && n in m && !m[n].fInTried && NoId !in m
    ensures CountsOk(m', nNew + 1, nTried, NoId)
  {
    assert NewIds(m', NoId) == NewIds(m, n) + {n};
    TriedIdsSame(m, m');
  }

  lemma PendNew(m: Infos, vvNew: seq<set<int>>, n: int, limbo: int)
    requires NewOk(m, vvNew, NoId, limbo) && n in m && !m[n].fInTried && NoId !in m
    requires limbo == n || limbo == NoId
    requires m[n].nRefCount < NEW_BUCKETS_PER_ADDRESS
    ensures NewOk(m[n := m[n].(nRefCount := m[n].nRefCount + 1)], vvNew, n, NoId)
  {
    hide Refs;
  }

  lemma PendFromLimbo(keying: Keying, t: Tables, n: int)
    requires Inv(keying, t, NoId, n) && n != NoId
    ensures Inv(keying, Pend(t.(nNew := t.nNew + 1), n), n, NoId)
  {
    hide BucketsOk, IdsOk, RandomOk, AddrOk, NewOk, TriedOk, CountsOk;
    var m' := Pend(t, n).mapInfo;
    Basics(keying, t, NoId, n);
    KeepIds(t.mapInfo, m', t.nIdCount);
    KeepRandom(t.mapInfo, m', t.vRandom);
    KeepAddr(t.mapInfo, m', t.mapAddr);
    KeepTried(keying, t.mapInfo, m', t.vvTried);
    PendNew(t.mapInfo, t.vvNew, n, n);
    PendCountsLimbo(t.mapInfo, m', t.nNew, t.nTried, n);
  }

  lemma PendFromNew(keying: Keying, t: Tables, n: int)
    requires Consistent(keying, t) && n in t.mapInfo && !t.mapInfo[n].fInTried
    requires t.mapInfo[n].nRefCount < NEW_BUCKETS_PER_ADDRESS
    ensures Inv(keying, Pend(t, n), n, NoId)
  {
    hide BucketsOk, IdsOk, RandomOk, AddrOk, NewOk, TriedOk, CountsOk;
    var m' := Pend(t, n).mapInfo;
    Basics(keying, t, NoId, NoId);
    KeepIds(t.mapInfo, m', t.nIdCount);
    KeepRandom(t.mapInfo, m', t.vRandom);
    KeepAddr(t.mapInfo, m', t.mapAddr);
    KeepTried(keying, t.mapInfo, m', t.vvTried);
    PendNew(t.mapInfo, t.vvNew, n, NoId);
    KeepCounts(t.mapInfo, m', t.nNew, t.nTried, NoId);
  }

  function PutInBucket(t: Tables, b: nat, n: int): Tables
    requires b < |t.vvNew|
  {
    t.(vvNew := t.vvNew[b := t.vvNew[b] + {n}])
  }

  lemma PutNew(m: Infos, vvNew: seq<set<int>>, b: nat, n: int)
    requires NewOk(m, vvNew, n, NoId) && n in m && b < |vvNew| && n !in vvNew[b] && NoId !in m
    ensures NewOk(m, vvNew[b := vvNew[b] + {n}], NoId, NoId)
  {
    forall k | k in m
      ensures Refs(vvNew[b := vvNew[b] + {n}], k) == Refs(vvNew, k) + if k == n then 1 else 0
    {
      RefsUpdate(vvNew, b, vvNew[b] + {n}, k);
    }
    hide Refs;
  }

  lemma PutBuckets(vvNew: seq<set<int>>, vvTried: seq<seq<int>>, b: nat, n: int)
    requires BucketsOk(vvNew, vvTried) && b < |vvNew| && |vvNew[b]| < NEW_BUCKET_SIZE
    ensures BucketsOk(vvNew[b := vvNew[b] + {n}], vvTried)
  {
    SetSizes(vvNew[b], n);
  }

  lemma SetSizes(s: set<int>, n: int)
    ensures |s - {n}| <= |s| && |s + {n}| <= |s| + 1
  {
    if n in s {
      assert s + {n} == s && s == (s - {n}) + {n};
    } else {
      assert s - {n} == s;
    }
  }

  lemma PutPending(keying: Keying, t: Tables, b: nat, n: int)
    requires Inv(keying, t, n, NoId) && n in t.mapInfo && b < |t.vvNew| && n !in t.vvNew[b]
    requires |t.vvNew[b]| < NEW_BUCKET_SIZE
    ensures Consistent(keying, PutInBucket(t, b, n))
  {
    hide BucketsOk, IdsOk, RandomOk, AddrOk, NewOk, TriedOk, CountsOk;
    Basics(keying, t, n, NoId);
    PutNew(t.mapInfo, t.vvNew, b, n);
    PutBuckets(t.vvNew, t.vvTried, b, n);
  }

  /** An id in limbo put in one new bucket. */
  function PutInNew(t: Tables, n: int, b: nat): Tables
    requires n in t.mapInfo && b < |t.vvNew|
  {
    PutInBucket(SetInfo(t, n, t.mapInfo[n].(nRefCount := 1)).(nNew := t.nNew + 1), b, n)
  }

  lemma PutInNewKeeps(keying: Keying, t: Tables, n: int, b: nat)
    requires Inv(keying, t, NoId, n) && n != NoId && b < |t.vvNew| && |t.vvNew[b]| < NEW_BUCKET_SIZE
    ensures Consistent(keying, PutInNew(t, n, b))
  {
    hide BucketsOk, IdsOk, RandomOk, AddrOk, NewOk, TriedOk, CountsOk;
    Basics(keying, t, NoId, n);
    PendFromLimbo(keying, t, n);
    PutPending(keying, Pend(t.(nNew := t.nNew + 1), n), b, n);
  }

  // ---------- Deleting an entry ----------

  function Delete(t: Tables, n: int): Tables
    requires RandomOk(t.mapInfo, t.vRandom) && n in t.mapInfo
  {
    DropLast(SwapRandom(t, t.mapInfo[n].nRandomPos, |t.vRandom| - 1), n)
  }

  lemma DeleteRandom(m: Infos, vRandom: seq<int>, n: int)
    requires RandomOk(m, vRandom) && vRandom != [] && vRandom[|vRandom| - 1] == n && n in m
    ensures RandomOk(m - {n}, vRandom[..|vRandom| - 1])
  {
    assert (m - {n}).Keys == m.Keys - {n};
    assert |m - {n}| == |(m - {n}).Keys| && |m| == |m.Keys|;
  }

  lemma DeleteAddr(m: Infos, mapAddr: map<nat, int>, n: int)
    requires AddrOk(m, mapAddr) && n in m
    ensures AddrOk(m - {n}, mapAddr - {m[n].Ip()})
  {
  }

  lemma DeleteNew(m: Infos, vvNew: seq<set<int>>, n: int, pending: int)
    requires NewOk(m, vvNew, pending, n) && n in m && pending != n && NoId !in m
    ensures NewOk(m - {n}, vvNew, pending, NoId)
  {
    RefsZero(vvNew, n);
    hide Refs;
  }

  lemma DeleteTried(keying: Keying, m: Infos, vvTried: seq<seq<int>>, n: int)
    requires |vvTried| == TRIED_BUCKET_COUNT && TriedOk(keying, m, vvTried) && n in m && !m[n].fInTried
    ensures TriedOk(keying, m - {n}, vvTried)
  {
    hide GetTriedBucket;
  }

  lemma DeleteCounts(m: Infos, nNew: int, nTried: int, n: int)
    requires CountsOk(m, nNew, nTried, n) && n in m && !m[n].fInTried && NoId !in m
    ensures CountsOk(m - {n}, nNew, nTried, NoId)
  {
    assert NewIds(m - {n}, NoId) == NewIds(m, n);
    assert TriedIds(m - {n}) == TriedIds(m);
  }

  lemma SwapToLast(t: Tables, n: int)
    requires RandomOk(t.mapInfo, t.vRandom) && n in t.mapInfo
    ensures var pos, last := t.mapInfo[n].nRandomPos, |t.vRandom| - 1;
            0 <= pos <= last && |SwapRandom(t, pos, last).vRandom| == |t.vRandom|
            && SwapRandom(t, pos, last).vRandom[last] == n
  {
  }

  function DropLast(s: Tables, n: int): Tables
    requires n in s.mapInfo && s.vRandom != []
  {
    s.(vRandom := s.vRandom[..|s.vRandom| - 1],
       mapAddr := s.mapAddr - {s.mapInfo[n].Ip()},
       mapInfo := s.mapInfo - {n})
  }

  lemma DropLastLimbo(keying: Keying, s: Tables, pending: int, n: int)
    requires Inv(keying, s, pending, n) && n != NoId && pending != n
    requires s.vRandom != [] && s.vRandom[|s.vRandom| - 1] == n
    ensures Inv(keying, DropLast(s, n), pending, NoId)
  {
    hide BucketsOk, IdsOk, RandomOk, AddrOk, NewOk, TriedOk, CountsOk;
    Basics(keying, s, pending, n);
    KeepIds(s.mapInfo, s.mapInfo - {n}, s.nIdCount);
    DeleteRandom(s.mapInfo, s.vRandom, n);
    DeleteAddr(s.mapInfo, s.mapAddr, n);
    DeleteNew(s.mapInfo, s.vvNew, n, pending);
    DeleteTried(keying, s.mapInfo, s.vvTried, n);
    DeleteCounts(s.mapInfo, s.nNew, s.nTried, n);
  }

  lemma DeleteLimbo(keying: Keying, t: Tables, pending: int, n: int)
    requires Inv(keying, t, pending, n) && n != NoId && pending != n
    ensures Inv(keying, Delete(t, n), pending, NoId)
    ensures Delete(t, n).vvNew == t.vvNew
    ensures pending in t.mapInfo ==> Alike(t.mapInfo[pending], Delete(t, n).mapInfo[pending])
  {
    hide BucketsOk, IdsOk, RandomOk, AddrOk, NewOk, TriedOk, CountsOk;
    SwapToLast(t, n);
    var s := SwapRandom(t, t.mapInfo[n].nRandomPos, |t.vRandom| - 1);
    assert Inv(keying, s, pending, n) && s.vvNew == t.vvNew && SameServices(t.mapInfo, s.mapInfo)
        && SameTried(t.mapInfo, s.mapInfo) && SameRefs(t.mapInfo, s.mapInfo) by {
      SwapRandomKeeps(keying, t, t.mapInfo[n].nRandomPos, |t.vRandom| - 1, pending, n);
    }
    hide SwapRandom;
    assert Inv(keying, DropLast(s, n), pending, NoId) by {
      DropLastLimbo(keying, s, pending, n);
    }
  }

  /** Taking id n out of bucket b, and deleting it if that was its last. */
  function DropRef(t: Tables, b: nat, n: int): Tables
    requires RandomOk(t.mapInfo, t.vRandom) && n in t.mapInfo && b < |t.vvNew|
  {
    var s := Unref(t, b, n);
    if t.mapInfo[n].nRefCount == 1 then Delete(s.(nNew := s.nNew - 1), n) else s
  }

  function Unref(t: Tables, b: nat, n: int): (s: Tables)
    requires n in t.mapInfo && b < |t.vvNew|
    ensures RandomOk(t.mapInfo, t.vRandom) ==> RandomOk(s.mapInfo, s.vRandom)
  {
    var info := t.mapInfo[n];
    var s := SetInfo(t, n, info.(nRefCount := info.nRefCount - 1)).(vvNew := t.vvNew[b := t.vvNew[b] - {n}]);
    assert RandomOk(t.mapInfo, t.vRandom) ==> RandomOk(s.mapInfo, s.vRandom) by {
      hide RandomOk;
      if RandomOk(t.mapInfo, t.vRandom) {
        KeepRandom(t.mapInfo, s.mapInfo, t.vRandom);
      }
    }
    s
  }

  lemma UnrefNew(m: Infos, vvNew: seq<set<int>>, b: nat, n: int, pending: int)
    requires NewOk(m, vvNew, pending, NoId) && b < |vvNew| && n in m && n in vvNew[b] && pending != n
    requires NoId !in m
    ensures var m' := m[n := m[n].(nRefCount := m[n].nRefCount - 1)];
            NewOk(m', vvNew[b := vvNew[b] - {n}], pending, if m[n].nRefCount == 1 then n else NoId)
  {
    RefsZero(vvNew, n);
    forall k | k in m
      ensures Refs(vvNew[b := vvNew[b] - {n}], k) == Refs(vvNew, k) - if k == n then 1 else 0
    {
      RefsUpdate(vvNew, b, vvNew[b] - {n}, k);
    }
    hide Refs;
  }

  lemma UnrefCounts(m: Infos, m': Infos, nNew: int, nTried: int, n: int)
    requires CountsOk(m, nNew, nTried, NoId) && SameTried(m, m') && n in m && !m[n].fInTried && NoId !in m
    ensures CountsOk(m', nNew - 1, nTried, n)
  {
    assert NewIds(m', n) == NewIds(m, NoId) - {n};
    TriedIdsSame(m, m');
  }

  lemma UnrefBuckets(vvNew: seq<set<int>>, vvTried: seq<seq<int>>, b: nat, n: int)
    requires BucketsOk(vvNew, vvTried) && b < |vvNew|
    ensures BucketsOk(vvNew[b := vvNew[b] - {n}], vvTried)
  {
    SetSizes(vvNew[b], n);
  }

  lemma InBucketIsNew(m: Infos, vvNew: seq<set<int>>, b: nat, n: int, pending: int, limbo: int)
    requires NewOk(m, vvNew, pending, limbo) && b < |vvNew| && n in vvNew[b]
    ensures n in m && !m[n].fInTried && n != limbo
    ensures 1 <= m[n].nRefCount
  {
    RefsZero(vvNew, n);
  }

  lemma DropRefKeeps(keying: Keying, t: Tables, b: nat, n: int, pending: int)
    requires Inv(keying, t, pending, NoId) && b < |t.vvNew| && n in t.vvNew[b] && pending != n
    ensures n in t.mapInfo
    ensures Inv(keying, DropRef(t, b, n), pending, NoId)
    ensures DropRef(t, b, n).vvNew == t.vvNew[b := t.vvNew[b] - {n}]
    ensures pending in t.mapInfo ==> Alike(t.mapInfo[pending], DropRef(t, b, n).mapInfo[pending])
  {
    hide BucketsOk, IdsOk, RandomOk, AddrOk, NewOk, TriedOk, CountsOk;
    InBucketIsNew(t.mapInfo, t.vvNew, b, n, pending, NoId);
    Basics(keying, t, pending, NoId);
    var s := Unref(t, b, n);
    KeepIds(t.mapInfo, s.mapInfo, t.nIdCount);
    KeepRandom(t.mapInfo, s.mapInfo, t.vRandom);
    KeepAddr(t.mapInfo, s.mapInfo, t.mapAddr);
    UnrefNew(t.mapInfo, t.vvNew, b, n, pending);
    UnrefBuckets(t.vvNew, t.vvTried, b, n);
    KeepTried(keying, t.mapInfo, s.mapInfo, t.vvTried);
    if t.mapInfo[n].nRefCount == 1 {
      UnrefCounts(t.mapInfo, s.mapInfo, t.nNew, t.nTried, n);
      DeleteLimbo(keying, s.(nNew := s.nNew - 1), pending, n);
    } else {
      KeepCounts(t.mapInfo, s.mapInfo, t.nNew, t.nTried, NoId);
    }
  }

  // ---------- From the new to the tried buckets ----------

  function Without(vvNew: seq<set<int>>, n: int): (r: seq<set<int>>)
    ensures |r| == |vvNew|
    ensures forall b | 0 <= b < |vvNew| :: r[b] == vvNew[b] - {n}
  {
    seq(|vvNew|, b requires 0 <= b < |vvNew| => vvNew[b] - {n})
  }

  lemma {:induction false} RefsWithout(vvNew: seq<set<int>>, n: int, m: int)
    ensures Refs(Without(vvNew, n), m) == if m == n then 0 else Refs(vvNew, m)
  {
    if vvNew != [] {
      var k := |vvNew| - 1;
      assert Without(vvNew, n)[..k] == Without(vvNew[..k], n);
      RefsWithout(vvNew[..k], n, m);
    }
  }

  /** Id n taken out of all new buckets. */
  function TakeFromNew(t: Tables, n: int): Tables
    requires n in t.mapInfo
  {
    SetInfo(t, n, t.mapInfo[n].(nRefCount := 0)).(vvNew := Without(t.vvNew, n), nNew := t.nNew - 1)
  }

  lemma TakeNew(m: Infos, vvNew: seq<set<int>>, n: int)
    requires NewOk(m, vvNew, NoId, NoId) && n in m && !m[n].fInTried && NoId !in m
    ensures NewOk(m[n := m[n].(nRefCount := 0)], Without(vvNew, n), NoId, n)
  {
    forall k | k in m
      ensures Refs(Without(vvNew, n), k) == if k == n then 0 else Refs(vvNew, k)
    {
      RefsWithout(vvNew, n, k);
    }
    hide Refs;
  }

  lemma TakeBuckets(vvNew: seq<set<int>>, vvTried: seq<seq<int>>, n: int)
    requires BucketsOk(vvNew, vvTried)
    ensures BucketsOk(Without(vvNew, n), vvTried)
  {
    forall b | 0 <= b < |vvNew|
      ensures |Without(vvNew, n)[b]| <= NEW_BUCKET_SIZE
    {
      SetSizes(vvNew[b], n);
    }
  }

  lemma TakeMakesLimbo(keying: Keying, t: Tables, n: int)
    requires Consistent(keying, t) && n in t.mapInfo && !t.mapInfo[n].fInTried
    ensures Inv(keying, TakeFromNew(t, n), NoId, n)
  {
    hide BucketsOk, IdsOk, RandomOk, AddrOk, NewOk, TriedOk, CountsOk;
    var m' := TakeFromNew(t, n).mapInfo;
    Basics(keying, t, NoId, NoId);
    KeepIds(t.mapInfo, m', t.nIdCount);
    KeepRandom(t.mapInfo, m', t.vRandom);
    KeepAddr(t.mapInfo, m', t.mapAddr);
    TakeNew(t.mapInfo, t.vvNew, n);
    TakeBuckets(t.vvNew, t.vvTried, n);
    KeepTried(keying, t.mapInfo, m', t.vvTried);
    UnrefCounts(t.mapInfo, m', t.nNew, t.nTried, n);
  }

  /** An id in limbo appended to a tried bucket. */
  function PutInTried(t: Tables, n: int, k: nat): Tables
    requires n in t.mapInfo && k < |t.vvTried|
  {
    SetInfo(t, n, t.mapInfo[n].(fInTried := true)).(
      vvTried := t.vvTried[k := t.vvTried[k] + [n]], nTried := t.nTried + 1)
  }

  lemma LimboNowTriedNew(m: Infos, vvNew: seq<set<int>>, n: int)
    requires NewOk(m, vvNew, NoId, n) && n in m && NoId !in m
    ensures NewOk(m[n := m[n].(fInTried := true)], vvNew, NoId, NoId)
  {
    hide Refs;
  }

  lemma TriedBuckets(vvNew: seq<set<int>>, vvTried: seq<seq<int>>, k: nat, bucket: seq<int>)
    requires BucketsOk(vvNew, vvTried) && k < |vvTried| && |bucket| <= TRIED_BUCKET_SIZE
    ensures BucketsOk(vvNew, vvTried[k := bucket])
  {
  }

  lemma TriedBucketSize(vvNew: seq<set<int>>, vvTried: seq<seq<int>>, k: nat)
    requires BucketsOk(vvNew, vvTried) && k < |vvTried|
    ensures |vvTried[k]| <= TRIED_BUCKET_SIZE
  {
  }

  lemma AppendTried(keying: Keying, m: Infos, vvTried: seq<seq<int>>, n: int)
    requires |vvTried| == TRIED_BUCKET_COUNT && TriedOk(keying, m, vvTried) && n in m && !m[n].fInTried
    ensures var k := GetTriedBucket(keying, m[n].addr.service);
            TriedOk(keying, m[n := m[n].(fInTried := true)], vvTried[k := vvTried[k] + [n]])
  {
    var k := GetTriedBucket(keying, m[n].addr.service);
    hide GetTriedBucket;
    var m', vv := m[n := m[n].(fInTried := true)], vvTried[k := vvTried[k] + [n]];
    assert n !in vvTried[k];
    assert vv[k][|vvTried[k]|] == n;
    forall j | j in m' && m'[j].fInTried
      ensures j in vv[GetTriedBucket(keying, m'[j].addr.service)]
    {
      assert j == n || j in vvTried[GetTriedBucket(keying, m[j].addr.service)];
    }
  }

  lemma AppendCounts(m: Infos, nNew: int, nTried: int, n: int)
    requires CountsOk(m, nNew, nTried, n) && n in m && !m[n].fInTried && NoId !in m
    ensures CountsOk(m[n := m[n].(fInTried := true)], nNew, nTried + 1, NoId)
  {
    var m' := m[n := m[n].(fInTried := true)];
    assert NewIds(m', NoId) == NewIds(m, n);
    assert TriedIds(m') == TriedIds(m) + {n};
  }

  lemma PutInTriedKeeps(keying: Keying, t: Tables, n: int)
    requires Inv(keying, t, NoId, n) && n != NoId
    requires |t.vvTried[GetTriedBucket(keying, t.mapInfo[n].addr.service)]| < TRIED_BUCKET_SIZE
    ensures Consistent(keying, PutInTried(t, n, GetTriedBucket(keying, t.mapInfo[n].addr.service)))
  {
    hide BucketsOk, IdsOk, RandomOk, AddrOk, NewOk, TriedOk, CountsOk, GetTriedBucket;
    var k := GetTriedBucket(keying, t.mapInfo[n].addr.service);
    var t' := PutInTried(t, n, k);
    Basics(keying, t, NoId, n);
    TriedBuckets(t.vvNew, t.vvTried, k, t.vvTried[k] + [n]);
    KeepIds(t.mapInfo, t'.mapInfo, t.nIdCount);
    KeepRandom(t.mapInfo, t'.mapInfo, t.vRandom);
    KeepAddr(t.mapInfo, t'.mapInfo, t.mapAddr);
    LimboNowTriedNew(t.mapInfo, t.vvNew, n);
    AppendTried(keying, t.mapInfo, t.vvTried, n);
    AppendCounts(t.mapInfo, t.nNew, t.nTried, n);
  }

  /** An id in limbo written over an entry of a full tried bucket, which is in limbo from then on. */
  function Replace(t: Tables, n: int, k: nat, pos: nat): Tables
    requires n in t.mapInfo && k < |t.vvTried| && pos < |t.vvTried[k]| && t.vvTried[k][pos] in t.mapInfo
  {
    t.(mapInfo := Exchange(t.mapInfo, n, t.vvTried[k][pos]), vvTried := t.vvTried[k := t.vvTried[k][pos := n]])
  }

  function Exchange(m: Infos, n: int, victim: int): Infos
    requires n in m && victim in m
  {
    m[n := m[n].(fInTried := true)][victim := m[victim].(fInTried := false)]
  }

  lemma InTriedBucket(keying: Keying, m: Infos, vvTried: seq<seq<int>>, k: nat, pos: nat)
    requires |vvTried| == TRIED_BUCKET_COUNT && TriedOk(keying, m, vvTried)
    requires k < |vvTried| && pos < |vvTried[k]|
    ensures vvTried[k][pos] in m && m[vvTried[k][pos]].fInTried
  {
  }

  lemma ExchangeSame(m: Infos, n: int, victim: int)
    requires n in m && victim in m
    ensures SameServices(m, Exchange(m, n, victim)) && SamePositions(m, Exchange(m, n, victim))
  {
    assert Exchange(m, n, victim).Keys == m.Keys;
  }

  lemma ExchangeNew(m: Infos, vvNew: seq<set<int>>, n: int, victim: int)
    requires NewOk(m, vvNew, NoId, n) && n in m && victim in m && m[victim].fInTried && NoId !in m
    ensures NewOk(Exchange(m, n, victim), vvNew, NoId, victim)
  {
    hide Refs;
  }

  lemma ExchangeTried(keying: Keying, m: Infos, vvTried: seq<seq<int>>, n: int, pos: nat)
    requires |vvTried| == TRIED_BUCKET_COUNT && TriedOk(keying, m, vvTried) && n in m && !m[n].fInTried
    requires pos < |vvTried[GetTriedBucket(keying, m[n].addr.service)]|
    ensures var k := GetTriedBucket(keying, m[n].addr.service);
            var victim := vvTried[k][pos];
            TriedOk(keying, Exchange(m, n, victim), vvTried[k := vvTried[k][pos := n]])
  {
    var k := GetTriedBucket(keying, m[n].addr.service);
    var victim := vvTried[k][pos];
    hide GetTriedBucket;
    var m', vv := Exchange(m, n, victim), vvTried[k := vvTried[k][pos := n]];
    assert n !in vvTried[k] && victim in vvTried[k];
    assert vv[k][pos] == n;
    forall j | j in m' && m'[j].fInTried
      ensures j in vv[GetTriedBucket(keying, m'[j].addr.service)]
    {
      if j != n {
        var b := GetTriedBucket(keying, m[j].addr.service);
        assert j in vvTried[b] && j != victim;
        var i :| 0 <= i < |vvTried[b]| && vvTried[b][i] == j;
        assert vv[b][i] == j;
      }
    }
    forall b, i | 0 <= b < |vv| && 0 <= i < |vv[b]|
      ensures vv[b][i] in m' && m'[vv[b][i]].fInTried
      ensures GetTriedBucket(keying, m'[vv[b][i]].addr.service) == b
    {
      if b == k && i == pos {
        assert vv[b][i] == n;
      } else {
        assert vv[b][i] == vvTried[b][i] != victim;
      }
    }
  }

  lemma ExchangeCounts(m: Infos, nNew: int, nTried: int, n: int, victim: int)
    requires CountsOk(m, nNew, nTried, n) && n in m && !m[n].fInTried && victim in m && m[victim].fInTried
    ensures CountsOk(Exchange(m, n, victim), nNew, nTried, victim)
  {
    var m' := Exchange(m, n, victim);
    assert NewIds(m', victim) == NewIds(m, n);
    assert TriedIds(m') == TriedIds(m) + {n} - {victim};
  }

  lemma ReplaceKeeps(keying: Keying, t: Tables, n: int, pos: nat)
    requires Inv(keying, t, NoId, n) && n != NoId
    requires pos < |t.vvTried[GetTriedBucket(keying, t.mapInfo[n].addr.service)]|
    ensures var k := GetTriedBucket(keying, t.mapInfo[n].addr.service);
            && t.vvTried[k][pos] in t.mapInfo
            && t.vvTried[k][pos] != n
            && Inv(keying, Replace(t, n, k, pos), NoId, t.vvTried[k][pos])
  {
    hide BucketsOk, IdsOk, RandomOk, AddrOk, NewOk, TriedOk, CountsOk, GetTriedBucket;
    var k := GetTriedBucket(keying, t.mapInfo[n].addr.service);
    var victim := t.vvTried[k][pos];
    Basics(keying, t, NoId, n);
    InTriedBucket(keying, t.mapInfo, t.vvTried, k, pos);
    TriedBucketSize(t.vvNew, t.vvTried, k);
    TriedBuckets(t.vvNew, t.vvTried, k, t.vvTried[k][pos := n]);
    var t' := Replace(t, n, k, pos);
    ExchangeSame(t.mapInfo, n, victim);
    hide Exchange;
    KeepIds(t.mapInfo, t'.mapInfo, t.nIdCount);
    KeepRandom(t.mapInfo, t'.mapInfo, t.vRandom);
    KeepAddr(t.mapInfo, t'.mapInfo, t.mapAddr);
    ExchangeNew(t.mapInfo, t.vvNew, n, victim);
    ExchangeTried(keying, t.mapInfo, t.vvTried, n, pos);
    ExchangeCounts(t.mapInfo, t.nNew, t.nTried, n, victim);
  }

  // ---------- Shuffling ----------

  /** The same entries, each once, in another order. */
  ghost predicate Rearranged(s: seq<int>, s': seq<int>) {
    |s'| == |s| && NoDuplicates(s') && forall n :: n in s <==> n in s'
  }

  function SwapSeq(s: seq<int>, i: nat, j: nat): seq<int>
    requires i < |s| && j < |s|
  {
    s[j := s[i]][i := s[j]]
  }

  lemma SwapRearranges(s: seq<int>, s': seq<int>, i: nat, j: nat)
    requires Rearranged(s, s') && i < |s| && j < |s|
    ensures Rearranged(s, SwapSeq(s', i, j))
  {
    var s'' := SwapSeq(s', i, j);
    forall n
      ensures n in s' <==> n in s''
    {
      if n in s' {
        var l :| 0 <= l < |s'| && s'[l] == n;
        assert s''[if l == i then j else if l == j then i else l] == n;
      }
    }
  }

  lemma ShuffleTried(keying: Keying, m: Infos, vvTried: seq<seq<int>>, k: nat, shuffled: seq<int>)
    requires |vvTried| == TRIED_BUCKET_COUNT && TriedOk(keying, m, vvTried)
    requires k < |vvTried| && Rearranged(vvTried[k], shuffled)
    ensures TriedOk(keying, m, vvTried[k := shuffled])
  {
    hide GetTriedBucket;
    forall i | 0 <= i < |shuffled|
      ensures shuffled[i] in vvTried[k]
    {
      assert shuffled[i] in shuffled;
    }
  }

  lemma ShuffleKeeps(keying: Keying, t: Tables, k: nat, shuffled: seq<int>, pending: int, limbo: int)
    requires Inv(keying, t, pending, limbo) && k < |t.vvTried| && Rearranged(t.vvTried[k], shuffled)
    ensures Inv(keying, t.(vvTried := t.vvTried[k := shuffled]), pending, limbo)
  {
    hide BucketsOk, IdsOk, RandomOk, AddrOk, NewOk, TriedOk, CountsOk;
    TriedBucketSize(t.vvNew, t.vvTried, k);
    TriedBuckets(t.vvNew, t.vvTried, k, shuffled);
    ShuffleTried(keying, t.mapInfo, t.vvTried, k, shuffled);
  }

  // ---------- Size ----------

  /** A set covered by buckets of bounded size is no larger than the buckets have room for. */
  ghost predicate Covered(buckets: seq<set<int>>, ids: set<int>) {
    forall n | n in ids :: exists b :: 0 <= b < |buckets| && n in buckets[b]
  }

  lemma CoveredByFirst(buckets: seq<set<int>>, ids: set<int>, k: nat)
    requires |buckets| == k + 1 && Covered(buckets, ids)
    ensures Covered(buckets[..k], ids - buckets[k])
  {
    forall n | n in ids - buckets[k]
      ensures exists b :: 0 <= b < |buckets[..k]| && n in buckets[..k][b]
    {
      var b :| 0 <= b < |buckets| && n in buckets[b];
      assert n in buckets[..k][b];
    }
  }

  lemma {:induction false} CoverBound(buckets: seq<set<int>>, ids: set<int>, size: nat)
    requires (forall b | 0 <= b < |buckets| :: |buckets[b]| <= size) && Covered(buckets, ids)
    ensures |ids| <= |buckets| * size
  {
    if buckets == [] {
      assert forall n :: n !in ids;
      assert ids == {};
    } else {
      hide Covered;
      var k := |buckets| - 1;
      var rest := ids - buckets[k];
      CoveredByFirst(buckets, ids, k);
      CoverBound(buckets[..k], rest, size);
      SubsetSize(ids, rest + buckets[k]);
      UnionSize(rest, buckets[k]);
      assert |buckets| * size == k * size + size;
    }
  }

  lemma {:induction false} SubsetSize(a: set<int>, b: set<int>)
    requires a <= b
    ensures |a| <= |b|
  {
    assert b == a + (b - a);
  }

  lemma UnionSize(a: set<int>, b: set<int>)
    ensures |a + b| <= |a| + |b|
  {
    assert a + b == a + (b - a);
    assert b == (b - a) + (a * b);
  }

  function Elements(s: seq<int>): set<int> {
    set n | n in s
  }

  lemma {:induction false} ListSize(s: seq<int>)
    ensures |Elements(s)| <= |s|
  {
    if s != [] {
      var k := |s| - 1;
      ListSize(s[..k]);
      assert s == s[..k] + [s[k]];
      assert Elements(s) == Elements(s[..k]) + {s[k]};
    }
  }

  /** The manager never holds more entries than its buckets have room for, and vRandom lists them all. */
  lemma SizeBound(keying: Keying, t: Tables)
    requires Consistent(keying, t)
    ensures |t.vRandom| == t.nNew + t.nTried
    ensures t.nNew <= 256 * 64 && t.nTried <= 64 * 64
  {
    assert |t.vRandom| == |t.mapInfo|;
    hide BucketsOk, IdsOk, RandomOk, AddrOk, NewOk, TriedOk;
    Basics(keying, t, NoId, NoId);
    SplitIds(t.mapInfo);
    NewBound(t.mapInfo, t.vvNew, t.vvTried);
    TriedBound(keying, t.mapInfo, t.vvNew, t.vvTried);
  }

  lemma SplitIds(m: Infos)
    requires NoId !in m
    ensures |m| == |NewIds(m, NoId)| + |TriedIds(m)|
  {
    assert m.Keys == NewIds(m, NoId) + TriedIds(m) && NewIds(m, NoId) !! TriedIds(m);
    assert |m| == |m.Keys|;
  }

  lemma NewBound(m: Infos, vvNew: seq<set<int>>, vvTried: seq<seq<int>>)
    requires BucketsOk(vvNew, vvTried) && NewOk(m, vvNew, NoId, NoId) && NoId !in m
    ensures |NewIds(m, NoId)| <= NEW_BUCKET_COUNT * NEW_BUCKET_SIZE
  {
    forall n | n in NewIds(m, NoId)
      ensures exists b :: 0 <= b < |vvNew| && n in vvNew[b]
    {
      RefsZero(vvNew, n);
    }
    CoverBound(vvNew, NewIds(m, NoId), NEW_BUCKET_SIZE);
  }

  lemma TriedBound(keying: Keying, m: Infos, vvNew: seq<set<int>>, vvTried: seq<seq<int>>)
    requires BucketsOk(vvNew, vvTried) && TriedOk(keying, m, vvTried)
    ensures |TriedIds(m)| <= TRIED_BUCKET_COUNT * TRIED_BUCKET_SIZE
  {
    hide GetTriedBucket;
    var buckets := seq(|vvTried|, k requires 0 <= k < |vvTried| => Elements(vvTried[k]));
    forall n | n in TriedIds(m)
      ensures exists k :: 0 <= k < |buckets| && n in buckets[k]
    {
      assert n in buckets[GetTriedBucket(keying, m[n].addr.service)];
    }
    forall k | 0 <= k < |buckets|
      ensures |buckets[k]| <= TRIED_BUCKET_SIZE
    {
      ListSize(vvTried[k]);
    }
    CoverBound(buckets, TriedIds(m), TRIED_BUCKET_SIZE);
  }
}

/** The address manager itself (src/addrman.cpp:80-387, 493-527; src/addrman.h:248-380): the methods
    update the tables in place, step by step as the source does, and are proved to do what AddrRuns
    says of them. */
module AddrMan {
  import opened AddrTables
  import opened AddrOps
  import opened AddrRuns
  import opened AddrDisk
  import AddrLaws
  import AddrRoundTrip

  const TRIED_ENTRIES_INSPECT_ON_EVICT: nat := 4
  const GETADDR_MAX_PCT: nat := 23
  const GETADDR_MAX: nat := 2500

  /** Any value below n. */
  method GetRandInt(n: nat) returns (r: nat)
    requires 0 < n
    ensures r < n
  {
    r :| r < n;
  }

  method Any<T>(s: set<T>) returns (x: T)
    requires |s| != 0
    ensures x in s
  {
    x :| x in s;
  }

  /** The ids of a bucket in the order its iterator visits them. */
  method Ascending(s: set<int>) returns (ids: seq<int>)
    ensures forall i, j | 0 <= i < j < |ids| :: ids[i] < ids[j]
    ensures forall i | 0 <= i < |ids| :: ids[i] in s
    ensures forall n | n in s :: n in ids
    ensures |ids| == |s|
  {
    ids := [];
    var rest := s;
    while |rest| != 0
      invariant rest <= s
      invariant forall i, j | 0 <= i < j < |ids| :: ids[i] < ids[j]
      invariant forall i | 0 <= i < |ids| :: ids[i] in s
      invariant forall n | n in rest :: forall i | 0 <= i < |ids| :: ids[i] < n
      invariant forall n | n in s :: n in rest || n in ids
      invariant |ids| + |rest| == |s|
    {
      var least := Least(rest);
      ids := ids + [least];
      rest := rest - {least};
    }
  }

  method Least(s: set<int>) returns (least: int)
    requires |s| != 0
    ensures least in s && forall n | n in s :: least <= n
  {
    var rest, found := s, false;
    least := 0;
    while |rest| != 0
      invariant rest <= s
      invariant if found then least in s && (forall n | n in s && n !in rest :: least <= n) else rest == s
    {
      var n := Any(rest);
      rest := rest - {n};
      if !found || n < least {
        least, found := n, true;
      }
    }
  }

  /** The rounds of choosing from a tried bucket. */
  method ChooseCandidate(mapInfo: Infos, s: seq<int>) returns (vTried: seq<int>, nOldestPos: int)
    requires s != [] && NoDuplicates(s) && forall n | n in s :: n in mapInfo
    ensures 0 <= nOldestPos < |s| && Rearranged(s, vTried) && Chosen(mapInfo, s, vTried, nOldestPos)
  {
    hide Chooses, Rearranged, NoDuplicates;
    NothingChosen(mapInfo, s);
    ghost var draws: seq<nat> := [];
    vTried := s;
    nOldestPos := NoId;
    var nOldest := NoId;
    var i := 0;
    while i < TRIED_ENTRIES_INSPECT_ON_EVICT && i < |vTried|
      invariant i == |draws| <= 4 && |vTried| == |s| && Draws(|s|, draws)
      invariant Chooses(mapInfo, s, draws) == Choice(vTried, nOldest, nOldestPos)
    {
      var r := GetRandInt(|vTried| - i);
      var pos := r + i;
      ChoosesNext(mapInfo, s, draws, pos);
      draws := draws + [pos];
      var nTemp := vTried[pos];
      vTried := vTried[pos := vTried[i]];
      vTried := vTried[i := nTemp];
      if i == 0 || mapInfo[nTemp].nLastSuccess < mapInfo[nOldest].nLastSuccess {
        nOldest := nTemp;
        nOldestPos := pos;
      }
      i := i + 1;
    }
    assert Chosen(mapInfo, s, vTried, nOldestPos);
  }

  /** The periodic update of the time, and the services added. */
  method Refresh(entry: AddrInfo, addr: Address, nTimePenalty: int, nNow: int) returns (info: AddrInfo)
    ensures info == Refreshed(entry, addr, nTimePenalty, nNow)
  {
    hide AfterPenalty;
    info := entry;
    var fCurrentlyOnline := nNow - addr.nTime < 24 * 60 * 60;
    var nUpdateInterval := if fCurrentlyOnline then 60 * 60 else 24 * 60 * 60;
    if addr.nTime != 0 && (info.addr.nTime == 0 || info.addr.nTime < addr.nTime - nUpdateInterval - nTimePenalty) {
      info := info.(addr := info.addr.(nTime := AfterPenalty(addr.nTime, nTimePenalty)));
    }
    info := info.(addr := info.addr.(nServices := info.addr.nServices + addr.nServices));
  }

  class AddrMan {
    const hash64: seq<nat> -> nat
    const group: nat -> nat
    var nKey: nat
    var nIdCount: int
    var mapInfo: map<int, AddrInfo>
    var mapAddr: map<nat, int>
    var vRandom: seq<int>
    var nTried: int
    var vvTried: seq<seq<int>>
    var nNew: int
    var vvNew: seq<set<int>>

    function State(): Tables
      reads this
    {
      Tables(nIdCount, mapInfo, mapAddr, vRandom, nTried, vvTried, nNew, vvNew)
    }

    function Key(): Keying
      reads this
    {
      Keying(nKey, hash64, group)
    }

    predicate Valid()
      reads this
    {
      Consistent(Key(), State())
    }

    constructor (hash64: seq<nat> -> nat, group: nat -> nat, randomKey: nat)
      ensures State() == EmptyTables() && Key() == Keying(randomKey, hash64, group)
      ensures Valid() && TimesOk(State())
    {
      this.hash64, this.group, nKey := hash64, group, randomKey;
      nIdCount, mapInfo, mapAddr, vRandom := 0, map[], map[], [];
      vvTried := seq(TRIED_BUCKET_COUNT, _ => []);
      vvNew := seq(NEW_BUCKET_COUNT, _ => {});
      nTried, nNew := 0, 0;
      EmptyConsistent(Keying(randomKey, hash64, group));
    }

    method Find(ip: nat) returns (found: bool, nId: int)
      ensures found <==> ip in mapAddr && mapAddr[ip] in mapInfo
      ensures found ==> nId == mapAddr[ip]
    {
      if ip !in mapAddr {
        return false, NoId;
      }
      nId := mapAddr[ip];
      found := nId in mapInfo;
    }

    method Create(addr: Address, source: nat) returns (nId: int)
      modifies this
      ensures nId == old(nIdCount) && State() == AddrOps.Create(old(State()), addr, source)
      ensures Key() == old(Key())
    {
      nId := nIdCount;
      nIdCount := nIdCount + 1;
      mapInfo := mapInfo[nId := NewEntry(addr, source, 0).(nRandomPos := NoId)];
      mapAddr := mapAddr[addr.service.ip := nId];
      mapInfo := mapInfo[nId := mapInfo[nId].(nRandomPos := |vRandom|)];
      vRandom := vRandom + [nId];
      assert mapInfo == AddrOps.Create(old(State()), addr, source).mapInfo;
    }

    method SwapRandom(nRndPos1: nat, nRndPos2: nat)
      requires RandomOk(mapInfo, vRandom) && nRndPos1 < |vRandom| && nRndPos2 < |vRandom|
      modifies this
      ensures State() == AddrOps.SwapRandom(old(State()), nRndPos1, nRndPos2)
      ensures Key() == old(Key())
    {
      if nRndPos1 == nRndPos2 {
        return;
      }
      var nId1 := vRandom[nRndPos1];
      var nId2 := vRandom[nRndPos2];
      assert nId1 != nId2;
      mapInfo := mapInfo[nId1 := mapInfo[nId1].(nRandomPos := nRndPos2)];
      mapInfo := mapInfo[nId2 := mapInfo[nId2].(nRandomPos := nRndPos1)];
      vRandom := vRandom[nRndPos1 := nId2];
      vRandom := vRandom[nRndPos2 := nId1];
    }

    /** The first few entries of a tried bucket swapped with random later ones; the position returned
        is one a candidate was found at. */
    method SelectTried(nKBucket: nat) returns (nPos: nat)
      requires nKBucket < |vvTried| && vvTried[nKBucket] != [] && NoDuplicates(vvTried[nKBucket])
      requires forall n | n in vvTried[nKBucket] :: n in mapInfo
      modifies this
      ensures |vvTried| == |old(vvTried)|
      ensures nPos < |vvTried[nKBucket]| && Rearranged(old(vvTried)[nKBucket], vvTried[nKBucket])
      ensures NoDuplicates(old(vvTried)[nKBucket]) && (forall n | n in old(vvTried)[nKBucket] :: n in old(mapInfo))
      ensures Chosen(old(mapInfo), old(vvTried)[nKBucket], vvTried[nKBucket], nPos)
      ensures State() == old(State()).(vvTried := old(vvTried)[nKBucket := vvTried[nKBucket]])
      ensures Key() == old(Key())
    {
      hide Chosen, NoDuplicates;
      var vTried;
      vTried, nPos := ChooseCandidate(mapInfo, vvTried[nKBucket]);
      SameLength(vvTried[nKBucket], vTried);
      hide Rearranged;
      vvTried := vvTried[nKBucket := vTried];
    }

    /** One reference to nId taken back, and the entry with it when it was the last. */
    method RemoveFromBucket(nUBucket: nat, nId: int)
      requires RandomOk(mapInfo, vRandom) && nId in mapInfo && nUBucket < |vvNew|
      modifies this
      ensures State() == DropRef(old(State()), nUBucket, nId)
      ensures Key() == old(Key())
    {
      ghost var t := State();
      ghost var s := Unref(t, nUBucket, nId);
      mapInfo := mapInfo[nId := mapInfo[nId].(nRefCount := mapInfo[nId].nRefCount - 1)];
      assert mapInfo == s.mapInfo;
      PlaceOf(mapInfo, vRandom, nId);
      hide RandomOk;
      if mapInfo[nId].nRefCount == 0 {
        SwapRandom(mapInfo[nId].nRandomPos, |vRandom| - 1);
        vRandom := vRandom[..|vRandom| - 1];
        mapAddr := mapAddr - {mapInfo[nId].Ip()};
        mapInfo := mapInfo - {nId};
        nNew := nNew - 1;
      }
      vvNew := vvNew[nUBucket := vvNew[nUBucket] - {nId}];
    }

    /** Makes room in a bucket: the first terrible entry leaves if there is one, otherwise the one
        with the oldest time among four drawn at random. */
    method ShrinkNew(nUBucket: nat, nNow: int) returns (result: int, ghost victim: int, ghost drawn: set<int>)
      requires nUBucket < |vvNew| && |vvNew[nUBucket]| != 0 && RandomOk(mapInfo, vRandom)
      requires vvNew[nUBucket] <= mapInfo.Keys
      modifies this
      ensures Key() == old(Key())
      ensures victim in old(vvNew)[nUBucket] && victim in old(mapInfo) && old(vvNew)[nUBucket] <= old(mapInfo).Keys
      ensures State() == DropRef(old(State()), nUBucket, victim)
      ensures Removes(old(mapInfo), old(vvNew)[nUBucket], nNow, result, victim)
      ensures result == 1 ==>
        (victim in drawn && drawn <= old(vvNew)[nUBucket] && |drawn| <= 4
         && forall n | n in drawn :: old(mapInfo)[victim].addr.nTime <= old(mapInfo)[n].addr.nTime)
    {
      drawn := {};
      var ids := Ascending(vvNew[nUBucket]);
      var i := 0;
      while i < |ids|
        invariant i <= |ids|
        invariant forall j | 0 <= j < i :: ids[j] in mapInfo && !IsTerrible(mapInfo[ids[j]], nNow)
        invariant State() == old(State()) && Key() == old(Key())
      {
        var n := ids[i];
        assert n in vvNew[nUBucket];
        assert n in mapInfo.Keys;
        if IsTerrible(mapInfo[n], nNow) {
          EarlierFine(ids, i, vvNew[nUBucket], mapInfo, nNow);
          RemoveFromBucket(nUBucket, n);
          return 0, n, {};
        }
        i := i + 1;
      }
      var nOldest, picked := PickOldest(nUBucket, ids);
      EarlierFine(ids, |ids|, vvNew[nUBucket], mapInfo, nNow);
      RemoveFromBucket(nUBucket, nOldest);
      return 1, nOldest, picked;
    }

    /** The oldest of four entries drawn at random, the first of them if several are as old. */
    method PickOldest(nUBucket: nat, ids: seq<int>) returns (nOldest: int, ghost drawn: set<int>)
      requires nUBucket < |vvNew| && |vvNew[nUBucket]| != 0 && |ids| == |vvNew[nUBucket]|
      requires forall i | 0 <= i < |ids| :: ids[i] in vvNew[nUBucket]
      requires vvNew[nUBucket] <= mapInfo.Keys
      ensures nOldest in drawn && drawn <= vvNew[nUBucket] && |drawn| <= 4
      ensures forall n | n in drawn :: mapInfo[nOldest].addr.nTime <= mapInfo[n].addr.nTime
    {
      forall i | 0 <= i < |ids|
        ensures ids[i] in mapInfo
      {
        assert ids[i] in vvNew[nUBucket];
        assert ids[i] in mapInfo.Keys;
      }
      var n0 := GetRandInt(|ids|);
      var n1 := GetRandInt(|ids|);
      var n2 := GetRandInt(|ids|);
      var n3 := GetRandInt(|ids|);
      drawn := {ids[n0], ids[n1], ids[n2], ids[n3]};
      nOldest := NoId;
      var first := true;
      var nI := 0;
      while nI < |ids|
        invariant nI <= |ids|
        invariant !first ==> nOldest in drawn && nOldest in mapInfo
        invariant n0 < nI ==> !first && mapInfo[nOldest].addr.nTime <= mapInfo[ids[n0]].addr.nTime
        invariant n1 < nI ==> !first && mapInfo[nOldest].addr.nTime <= mapInfo[ids[n1]].addr.nTime
        invariant n2 < nI ==> !first && mapInfo[nOldest].addr.nTime <= mapInfo[ids[n2]].addr.nTime
        invariant n3 < nI ==> !first && mapInfo[nOldest].addr.nTime <= mapInfo[ids[n3]].addr.nTime
      {
        if nI == n0 || nI == n1 || nI == n2 || nI == n3 {
          if first || mapInfo[ids[nI]].addr.nTime < mapInfo[nOldest].addr.nTime {
            nOldest := ids[nI];
            first := false;
          }
        }
        nI := nI + 1;
      }
    }

    /** Takes nId out of every new bucket, counting its references down. */
    method LeaveNewBuckets(nId: int)
      requires nId in mapInfo
      modifies this
      ensures State() == old(State()).(
                vvNew := Without(old(vvNew), nId),
                mapInfo := old(mapInfo)[nId := old(mapInfo)[nId].(
                  nRefCount := old(mapInfo)[nId].nRefCount - Refs(old(vvNew), nId))])
      ensures Key() == old(Key())
    {
      hide Refs;
      RefsNone(nId);
      var b := 0;
      while b < |vvNew|
        invariant b <= |vvNew| == |old(vvNew)|
        invariant forall j | 0 <= j < b :: vvNew[j] == old(vvNew)[j] - {nId}
        invariant forall j | b <= j < |vvNew| :: vvNew[j] == old(vvNew)[j]
        invariant State() == old(State()).(
                    vvNew := vvNew,
                    mapInfo := old(mapInfo)[nId := old(mapInfo)[nId].(
                      nRefCount := old(mapInfo)[nId].nRefCount - Refs(old(vvNew)[..b], nId))])
        invariant Key() == old(Key())
      {
        RefsNext(old(vvNew), b, nId);
        if nId in vvNew[b] {
          mapInfo := mapInfo[nId := mapInfo[nId].(nRefCount := mapInfo[nId].nRefCount - 1)];
        }
        vvNew := vvNew[b := vvNew[b] - {nId}];
        b := b + 1;
      }
      assert old(vvNew)[..b] == old(vvNew);
      assert vvNew == Without(old(vvNew), nId);
    }

    method MakeTried(nId: int, nOrigin: nat)
      requires Valid() && nOrigin < NEW_BUCKET_COUNT && nId in vvNew[nOrigin] && nId in mapInfo
      modifies this
      ensures Moved(Key(), old(State()), nId, nOrigin, State())
      ensures Key() == old(Key())
    {
      hide BucketsOk, IdsOk, RandomOk, AddrOk, NewOk, TriedOk, CountsOk;
      hide GetTriedBucket, GetNewBucket, Rearranged, Chosen;
      ghost var t := State();
      InBucketIsNew(t.mapInfo, t.vvNew, nOrigin, nId, NoId, NoId);
      RefsExact(Key(), t, nId);
      TakeMakesLimbo(Key(), t, nId);
      LeaveNewBuckets(nId);
      nNew := nNew - 1;
      assert mapInfo[nId].nRefCount == 0;
      assert State() == TakeFromNew(t, nId);
      var nKBucket := GetTriedBucket(Key(), mapInfo[nId].addr.service);
      if |vvTried[nKBucket]| < TRIED_BUCKET_SIZE {
        vvTried := vvTried[nKBucket := vvTried[nKBucket] + [nId]];
        nTried := nTried + 1;
        mapInfo := mapInfo[nId := mapInfo[nId].(fInTried := true)];
        return;
      }
      BucketMembers(Key(), mapInfo, vvTried, nKBucket, nId);
      var nPos := SelectTried(nKBucket);
      SameMembers(t.vvTried[nKBucket], vvTried[nKBucket], nPos);
      Evict(nId, nKBucket, nPos, nOrigin);
    }

    /** The second half of MakeTried: the chosen entry goes back to a new bucket. */
    method Evict(nId: int, nKBucket: nat, nPos: nat, nOrigin: nat)
      requires nId in mapInfo && nKBucket < |vvTried| && nPos < |vvTried[nKBucket]|
      requires vvTried[nKBucket][nPos] in mapInfo && vvTried[nKBucket][nPos] != nId
      requires |vvNew| == NEW_BUCKET_COUNT && nOrigin < NEW_BUCKET_COUNT
      modifies this
      ensures State() == Evicted(old(Key()), old(State()), nId, nKBucket, nPos, nOrigin)
      ensures Key() == old(Key())
    {
      var nOld := vvTried[nKBucket][nPos];
      var nUBucket := GetNewBucket(Key(), mapInfo[nOld].Ip(), mapInfo[nOld].source);
      mapInfo := mapInfo[nOld := mapInfo[nOld].(fInTried := false)];
      mapInfo := mapInfo[nOld := mapInfo[nOld].(nRefCount := 1)];
      if |vvNew[nUBucket]| < NEW_BUCKET_SIZE {
        vvNew := vvNew[nUBucket := vvNew[nUBucket] + {nOld}];
      } else {
        vvNew := vvNew[nOrigin := vvNew[nOrigin] + {nOld}];
      }
      nNew := nNew + 1;
      vvTried := vvTried[nKBucket := vvTried[nKBucket][nPos := nId]];
      mapInfo := mapInfo[nId := mapInfo[nId].(fInTried := true)];
      assert mapInfo == Evicted(old(Key()), old(State()), nId, nKBucket, nPos, nOrigin).mapInfo;
    }

    /** The update of the entry itself. */
    method MarkGood(nId: int, nTime: int)
      requires nId in mapInfo
      modifies this`mapInfo
      ensures State() == SetInfo(old(State()), nId, Succeeded(old(mapInfo)[nId], nTime))
    {
      mapInfo := mapInfo[nId := mapInfo[nId].(nLastSuccess := nTime)];
      mapInfo := mapInfo[nId := mapInfo[nId].(nLastTry := nTime)];
      mapInfo := mapInfo[nId := mapInfo[nId].(addr := mapInfo[nId].addr.(nTime := ToUint32(nTime)))];
      mapInfo := mapInfo[nId := mapInfo[nId].(nAttempts := 0)];
    }

    method Good(service: Service, nTime: int)
      requires Valid()
      modifies this
      ensures Does(old(Key()), Op.Good(service, nTime), old(State()), State()) && Key() == old(Key())
      ensures Valid()
      ensures old(TimesOk(State())) ==> (TimesOk(State()) <==> TimeFits(old(State()), Op.Good(service, nTime)))
    {
      ghost var t := State();
      var found, nId := Find(service.ip);
      AddrMatches(Key(), t, service.ip);
      if found && mapInfo[nId].addr.service == service {
        MarkGood(nId, nTime);
        SetInfoKeeps(Key(), t, nId, Succeeded(t.mapInfo[nId], nTime), NoId, NoId);
        if !mapInfo[nId].fInTried {
          hide BucketsOk, IdsOk, RandomOk, AddrOk, NewOk, TriedOk, CountsOk, Moved;
          var nUBucket := FindBucket(nId);
          if nUBucket != NoId {
            MakeTried(nId, nUBucket);
          }
        }
      }
      hide Does, TimesOk, TimeFits, Consistent;
      StepKeepsInv(Key(), Op.Good(service, nTime), t, State());
      if TimesOk(t) {
        StepKeepsTimes(Key(), Op.Good(service, nTime), t, State());
      }
    }

    /** A new bucket that holds nId, looked for from a random one on; there always is one. */
    method FindBucket(nId: int) returns (nUBucket: int)
      requires Valid() && nId in mapInfo && !mapInfo[nId].fInTried
      ensures 0 <= nUBucket < |vvNew| && nId in vvNew[nUBucket]
    {
      InSomeBucket(Key(), State(), nId);
      assert |vvNew| == NEW_BUCKET_COUNT;
      ghost var b :| 0 <= b < |vvNew| && nId in vvNew[b];
      hide Consistent;
      var nRnd := GetRandInt(|vvNew|);
      assert Rotate(if nRnd <= b then b - nRnd else b + NEW_BUCKET_COUNT - nRnd, nRnd) == b;
      nUBucket := NoId;
      var n := 0;
      while n < |vvNew| && nUBucket == NoId
        invariant n <= |vvNew|
        invariant nUBucket == NoId || (0 <= nUBucket < |vvNew| && nId in vvNew[nUBucket])
        invariant nUBucket == NoId ==> forall m | 0 <= m < n :: nId !in vvNew[Rotate(m, nRnd)]
        decreases |vvNew| - n, nUBucket == NoId
      {
        var nB := (n + nRnd) % |vvNew|;
        if nId in vvNew[nB] {
          nUBucket := nB;
        } else {
          n := n + 1;
        }
      }
    }

    method Add(addr: Address, source: nat, nTimePenalty: int, nNow: int, routable: bool) returns (fNew: bool)
      requires Valid()
      modifies this
      ensures Does(old(Key()), Op.Add(addr, source, nTimePenalty, nNow, routable), old(State()), State())
      ensures Key() == old(Key())
      ensures fNew <==> routable && addr.service.ip !in old(mapAddr)
      ensures Valid()
      ensures old(TimesOk(State())) ==> TimesOk(State())
    {
      ghost var t := State();
      fNew := routable && addr.service.ip !in mapAddr;
      if routable {
        var found, nId := Find(addr.service.ip);
        AddrMatches(Key(), t, addr.service.ip);
        if found {
          Renew(nId, addr, source, nTimePenalty, nNow);
        } else {
          AddNew(addr, source, nTimePenalty, nNow);
        }
      }
      hide Does, TimesOk, TimeFits, Consistent;
      StepKeepsInv(Key(), Op.Add(addr, source, nTimePenalty, nNow, routable), t, State());
      if TimesOk(t) {
        StepKeepsTimes(Key(), Op.Add(addr, source, nTimePenalty, nNow, routable), t, State());
      }
    }

    /** An address that is known already: refreshed, and perhaps put in one more bucket. */
    method Renew(nId: int, addr: Address, source: nat, nTimePenalty: int, nNow: int)
      requires Valid() && addr.service.ip in mapAddr && mapAddr[addr.service.ip] == nId && nId in mapInfo
      modifies this
      ensures Added(old(Key()), old(State()), addr, source, nTimePenalty, nNow, State())
      ensures Key() == old(Key())
    {
      ghost var t := State();
      ghost var info := Refreshed(t.mapInfo[nId], addr, nTimePenalty, nNow);
      hide BucketsOk, IdsOk, RandomOk, AddrOk, NewOk, TriedOk, CountsOk, GetNewBucket, Placed;
      SetInfoKeeps(Key(), t, nId, info, NoId, NoId);
      SetInfoRandom(Key(), t, nId, info);
      var refreshed := Refresh(mapInfo[nId], addr, nTimePenalty, nNow);
      mapInfo := mapInfo[nId := refreshed];
      hide Refreshed;
      if addr.nTime == 0 || (mapInfo[nId].addr.nTime != 0 && addr.nTime <= mapInfo[nId].addr.nTime) {
        return;
      }
      if mapInfo[nId].fInTried {
        return;
      }
      if mapInfo[nId].nRefCount == NEW_BUCKETS_PER_ADDRESS {
        return;
      }
      RefsPositive(Key(), State(), nId);
      var nFactor := 1;
      var n := 0;
      while n < mapInfo[nId].nRefCount
        invariant 1 <= nFactor
        decreases mapInfo[nId].nRefCount - n
      {
        nFactor := nFactor * 2;
        n := n + 1;
      }
      var r := GetRandInt(nFactor);
      if nFactor > 1 && r != 0 {
        return;
      }
      PlaceKnown(nId, GetNewBucket(Key(), mapInfo[nId].Ip(), source), nNow);
    }

    /** An address not known yet: a new entry, put in one bucket. */
    method AddNew(addr: Address, source: nat, nTimePenalty: int, nNow: int)
      requires Valid() && addr.service.ip !in mapAddr
      modifies this
      ensures Added(old(Key()), old(State()), addr, source, nTimePenalty, nNow, State())
      ensures Key() == old(Key())
    {
      ghost var t := State();
      ghost var aged := addr.(nTime := AfterPenalty(addr.nTime, nTimePenalty));
      hide BucketsOk, IdsOk, RandomOk, AddrOk, NewOk, TriedOk, CountsOk, GetNewBucket, Placed;
      CreatedRandom(Key(), t, aged, source);
      CreateMakesLimbo(Key(), t, aged, source);
      NotInBuckets(Key(), t, GetNewBucket(Key(), addr.service.ip, source));
      PendFromLimbo(Key(), AddrOps.Create(t, aged, source), t.nIdCount);
      var nId := Create(addr, source);
      mapInfo := mapInfo[nId := mapInfo[nId].(addr := mapInfo[nId].addr.(
        nTime := AfterPenalty(mapInfo[nId].addr.nTime, nTimePenalty)))];
      nNew := nNew + 1;
      assert mapInfo == AddrOps.Create(t, aged, source).mapInfo;
      assert State() == Counted(AddrOps.Create(t, aged, source));
      Place(nId, GetNewBucket(Key(), mapInfo[nId].Ip(), source), nNow);
    }

    method PlaceKnown(nId: int, nUBucket: nat, nNow: int)
      requires Valid() && nUBucket < |vvNew| && nId in mapInfo && !mapInfo[nId].fInTried
      requires mapInfo[nId].nRefCount < NEW_BUCKETS_PER_ADDRESS
      modifies this
      ensures RandomOk(old(mapInfo), old(vRandom)) && nId in old(mapInfo) && nUBucket < |old(vvNew)|
      ensures forall m | m in old(vvNew)[nUBucket] :: m in old(mapInfo)
      ensures Placed(old(State()), nId, nUBucket, nNow, State())
      ensures Key() == old(Key())
    {
      hide BucketsOk, IdsOk, RandomOk, AddrOk, NewOk, TriedOk, CountsOk, Placed;
      PendFromNew(Key(), State(), nId);
      BucketIds(Key(), State(), nUBucket, NoId, NoId);
      Place(nId, nUBucket, nNow);
    }

    /** The end of Add: nId goes into the bucket unless it is there, making room if it is full. */
    method Place(nId: int, nUBucket: nat, nNow: int)
      requires RandomOk(mapInfo, vRandom) && nId in mapInfo && nUBucket < |vvNew|
      requires forall m | m in vvNew[nUBucket] :: m in mapInfo
      requires nId !in vvNew[nUBucket] ==> Inv(Key(), Pend(State(), nId), nId, NoId)
      modifies this
      ensures Placed(old(State()), nId, nUBucket, nNow, State())
      ensures Key() == old(Key())
    {
      if nId !in vvNew[nUBucket] {
        ghost var t := State();
        PendRandom(t, nId);
        hide RandomOk, Inv, Placed;
        mapInfo := mapInfo[nId := mapInfo[nId].(nRefCount := mapInfo[nId].nRefCount + 1)];
        BucketKeys(t.mapInfo, vvNew[nUBucket], nId, mapInfo[nId]);
        assert State() == Pend(t, nId);
        hide Pend;
        PlacePended(nId, nUBucket, nNow, t);
      }
    }

    method PlacePended(nId: int, nUBucket: nat, nNow: int, ghost t: Tables)
      requires RandomOk(t.mapInfo, t.vRandom) && RandomOk(mapInfo, vRandom)
      requires nId in t.mapInfo && nUBucket < |t.vvNew| && nId !in t.vvNew[nUBucket]
      requires forall m | m in t.vvNew[nUBucket] :: m in t.mapInfo
      requires vvNew == t.vvNew && vvNew[nUBucket] <= mapInfo.Keys
      requires Inv(Key(), State(), nId, NoId) && State() == Pend(t, nId)
      modifies this
      ensures Placed(t, nId, nUBucket, nNow, State())
      ensures Key() == old(Key())
    {
      hide RandomOk, Inv, DropRef, Swapped, Removes, Pend;
      if |vvNew[nUBucket]| == NEW_BUCKET_SIZE {
        var result, victim, _ := ShrinkNew(nUBucket, nNow);
        SameRemoves(t, nId, nUBucket, nNow, result, victim);
        SwappedIs(Key(), t, nId, nUBucket, victim);
      }
      vvNew := vvNew[nUBucket := vvNew[nUBucket] + {nId}];
    }

    method Attempt(service: Service, nTime: int)
      requires Valid()
      modifies this
      ensures Does(old(Key()), Op.Attempt(service, nTime), old(State()), State()) && Key() == old(Key())
      ensures Valid()
      ensures old(TimesOk(State())) ==> (TimesOk(State()) <==> TimeFits(old(State()), Op.Attempt(service, nTime)))
    {
      ghost var t := State();
      var found, nId := Find(service.ip);
      if found && mapInfo[nId].addr.service == service {
        mapInfo := mapInfo[nId := mapInfo[nId].(nLastTry := nTime)];
        mapInfo := mapInfo[nId := mapInfo[nId].(nAttempts := mapInfo[nId].nAttempts + 1)];
        assert State() == SetInfo(t, nId, Attempted(t.mapInfo[nId], nTime));
      }
      StepKeepsInv(Key(), Op.Attempt(service, nTime), t, State());
      hide Consistent, TimesOk;
      if TimesOk(t) {
        StepKeepsTimes(Key(), Op.Attempt(service, nTime), t, State());
      }
    }

    method Connected(service: Service, nTime: int)
      requires Valid()
      modifies this
      ensures Does(old(Key()), Op.Connected(service, nTime), old(State()), State()) && Key() == old(Key())
      ensures Valid()
      ensures old(TimesOk(State())) ==> TimesOk(State())
    {
      ghost var t := State();
      var found, nId := Find(service.ip);
      if found && mapInfo[nId].addr.service == service {
        if nTime - mapInfo[nId].addr.nTime > 20 * 60 {
          mapInfo := mapInfo[nId := mapInfo[nId].(addr := mapInfo[nId].addr.(nTime := ToUint32(nTime)))];
        }
        assert mapInfo == t.mapInfo[nId := ConnectedTo(t.mapInfo[nId], nTime)];
        assert State() == SetInfo(t, nId, ConnectedTo(t.mapInfo[nId], nTime));
      }
      StepKeepsInv(Key(), Op.Connected(service, nTime), t, State());
      hide Consistent, TimesOk;
      if TimesOk(t) {
        StepKeepsTimes(Key(), Op.Connected(service, nTime), t, State());
      }
    }

    /** The entries of the first nNodes places of vRandom, each place filled at random. */
    method ShuffleFront(nNodes: nat) returns (vAddr: seq<Address>)
      requires Reordered(State(), State()) && nNodes <= |vRandom|
      modifies this
      ensures Reordered(old(State()), State()) && Key() == old(Key())
      ensures |vRandom| == |old(vRandom)| && |vAddr| == nNodes
      ensures forall i | 0 <= i < nNodes :: vRandom[i] in mapInfo && vAddr[i] == mapInfo[vRandom[i]].addr
    {
      ghost var t := State();
      vAddr := [];
      var n := 0;
      while n < nNodes
        invariant n == |vAddr| <= nNodes
        invariant |vRandom| == |t.vRandom|
        invariant Reordered(t, State()) && Key() == old(Key())
        invariant forall i | 0 <= i < n :: vRandom[i] in mapInfo && vAddr[i] == mapInfo[vRandom[i]].addr
      {
        var r := GetRandInt(|vRandom| - n);
        var nRndPos := r + n;
        ghost var s := State();
        SwapReorders(t, s, n, nRndPos);
        hide Reordered, RandomOk, AddrOps.SwapRandom;
        SwapRandom(n, nRndPos);
        vAddr := vAddr + [mapInfo[vRandom[n]].addr];
        n := n + 1;
      }
    }

    /** A random selection: the entries shuffled to the front of vRandom. */
    method GetAddr() returns (vAddr: seq<Address>)
      requires Valid()
      modifies this
      ensures Does(old(Key()), Op.GetAddr, old(State()), State()) && Key() == old(Key())
      ensures Valid()
      ensures old(TimesOk(State())) ==> TimesOk(State())
      ensures |vRandom| == |old(vRandom)|
      ensures |vAddr| ==
              if 23 * |vRandom| / 100 > 2500 then 2500 else 23 * |vRandom| / 100
      ensures forall i | 0 <= i < |vAddr| ::
                i < |vRandom| && vRandom[i] in mapInfo && vAddr[i] == mapInfo[vRandom[i]].addr
    {
      ghost var t := State();
      ReorderedSelf(Key(), t);
      hide Consistent, Reordered, TimesOk;
      var nNodes := GETADDR_MAX_PCT * |vRandom| / 100;
      if nNodes > GETADDR_MAX {
        nNodes := GETADDR_MAX;
      }
      vAddr := ShuffleFront(nNodes);
      StepKeepsInv(Key(), Op.GetAddr, t, State());
      if TimesOk(t) {
        ReorderedTimes(t, State());
      }
    }

    // ---------- Saving and loading ----------

    /** The new entries in id order, and the number each gets; the walk stops when nNew are found. */
    method NumberNew() returns (entries: seq<Entry>, mapUnkIds: map<int, int>, ghost news: seq<int>)
      requires Valid()
      ensures Lists(news, NewIds(mapInfo, NoId)) && Entered(mapInfo, news, entries) && Numbered(mapUnkIds, news)
    {
      NewAreReferenced(Key(), State());
      hide Consistent, NewIds;
      var ids := Ascending(mapInfo.Keys);
      KeysInMap(ids, mapInfo);
      entries, mapUnkIds, news := [], map[], [];
      NoneVisited(ids, NewIds(mapInfo, NoId), mapInfo);
      hide Lists, Visited, Entered, Numbered;
      var i := 0;
      while i < |ids| && |entries| != nNew
        invariant i <= |ids| && |entries| == |news|
        invariant Visited(ids, i, news, NewIds(mapInfo, NoId))
        invariant Entered(mapInfo, news, entries) && Numbered(mapUnkIds, news)
      {
        hide Visited, Entered, Numbered;
        var n := ids[i];
        var info := mapInfo[n];
        VisitNext(ids, i, news, NewIds(mapInfo, NoId));
        EnterNext(mapInfo, news, entries, n);
        NumberNext(mapUnkIds, news, n);
        mapUnkIds := mapUnkIds[n := |entries|];
        if info.nRefCount != 0 {
          entries := entries + [ToEntry(info)];
          news := news + [n];
        }
        i := i + 1;
      }
      AllVisited(ids, i, news, NewIds(mapInfo, NoId), mapInfo.Keys);
    }

    /** The tried entries in id order. */
    method ListTried() returns (entries: seq<Entry>, ghost trieds: seq<int>)
      requires Valid()
      ensures Lists(trieds, TriedIds(mapInfo)) && Entered(mapInfo, trieds, entries)
    {
      var ids := Ascending(mapInfo.Keys);
      ListNone(Key(), State(), ids);
      hide Consistent, Lists, Entered, ListedTo, TriedIds;
      entries, trieds := [], [];
      var i := 0;
      while i < |ids| && |entries| != nTried
        invariant ListedTo(mapInfo, ids, i, trieds, entries)
        invariant i <= |ids| && |entries| == |trieds|
      {
        ListNext(mapInfo, ids, i, trieds, entries);
        var info := mapInfo[ids[i]];
        if info.fInTried {
          entries := entries + [ToEntry(info)];
          trieds := trieds + [ids[i]];
        }
        i := i + 1;
      }
      ListAll(mapInfo, ids, i, trieds, entries);
    }

    /** A bucket as the numbers of its members. */
    method NumberBucket(b: nat, mapUnkIds: map<int, int>, ghost news: seq<int>) returns (refs: seq<int>)
      requires b < |vvNew| && NoDuplicates(news)
      requires Numbered(mapUnkIds, news)
      requires forall n | n in vvNew[b] :: n in news
      ensures Indexes(refs, vvNew[b], news)
    {
      var ids := Ascending(vvNew[b]);
      NumbersKnown(ids, vvNew[b], news);
      refs := [];
      while |refs| < |ids|
        invariant |refs| <= |ids|
        invariant forall j | 0 <= j < |refs| :: 0 <= refs[j] < |news| && news[refs[j]] == ids[j]
      {
        var n := ids[|refs|];
        refs := refs + [if n in mapUnkIds then mapUnkIds[n] else 0];
      }
      forall n | n in vvNew[b]
        ensures exists i :: 0 <= i < |refs| && 0 <= refs[i] < |news| && news[refs[i]] == n
      {
        assert n in ids;
        var i :| 0 <= i < |ids| && ids[i] == n;
        assert news[refs[i]] == n;
      }
    }

    method Serialize() returns (d: Disk, ghost news: seq<int>, ghost trieds: seq<int>)
      requires Valid()
      ensures Saves(Key(), State(), d, news, trieds)
    {
      var newEntries, mapUnkIds, newIds := NumberNew();
      var triedEntries, triedIds := ListTried();
      news, trieds := newIds, triedIds;
      CountsMatch(Key(), State(), news, trieds);
      var buckets: seq<seq<int>> := [];
      while |buckets| < |vvNew|
        invariant |buckets| <= |vvNew|
        invariant forall b | 0 <= b < |buckets| :: Indexes(buckets[b], vvNew[b], news)
      {
        hide Consistent, Indexes, Lists;
        var refs := NumberBucket(|buckets|, mapUnkIds, news);
        buckets := buckets + [refs];
      }
      d := Disk(nKey, nNew, nTried, newEntries, triedEntries, buckets);
      hide Lists, Indexes;
    }

    /** The first loop of loading. */
    method LoadNewEntries(d: Disk)
      requires Complete(d) && State() == Cleared(d)
      modifies this
      ensures State() == LoadNews(Key(), d, |d.news|) && Key() == old(Key())
    {
      var n := 0;
      while n < nNew
        invariant nNew == |d.news| && n <= |d.news|
        invariant State() == LoadNews(Key(), d, n) && Key() == old(Key())
      {
        NewsCounts(Key(), d, n + 1);
        hide LoadEntry;
        LoadNewEntry(n, d.news[n], |d.buckets| != NEW_BUCKET_COUNT);
        n := n + 1;
      }
    }

    method LoadNewEntry(n: int, e: Entry, rebuilds: bool)
      requires |vvNew| == NEW_BUCKET_COUNT
      modifies this
      ensures State() == LoadEntry(Key(), rebuilds, old(State()), n, e) && Key() == old(Key())
    {
      hide GetNewBucket;
      mapInfo := mapInfo[n := FromEntry(e)];
      mapAddr := mapAddr[e.addr.service.ip := n];
      mapInfo := mapInfo[n := mapInfo[n].(nRandomPos := |vRandom|)];
      vRandom := vRandom + [n];
      assert State() == LoadNew(old(State()), n, e);
      if rebuilds {
        var nUBucket := GetNewBucket(Key(), mapInfo[n].Ip(), mapInfo[n].source);
        vvNew := vvNew[nUBucket := vvNew[nUBucket] + {n}];
        mapInfo := mapInfo[n := mapInfo[n].(nRefCount := mapInfo[n].nRefCount + 1)];
      }
    }

    method LoadTriedEntry(e: Entry) returns (kept: bool)
      requires |vvTried| == TRIED_BUCKET_COUNT
      modifies this
      ensures kept <==> |old(vvTried)[GetTriedBucket(Key(), e.addr.service)]| < TRIED_BUCKET_SIZE
      ensures State() == if kept then LoadTried(Key(), old(State()), e) else old(State())
      ensures Key() == old(Key())
    {
      hide GetTriedBucket;
      var info := FromEntry(e);
      var k := GetTriedBucket(Key(), info.addr.service);
      kept := |vvTried[k]| < TRIED_BUCKET_SIZE;
      if kept {
        info := info.(nRandomPos := |vRandom|);
        info := info.(fInTried := true);
        vRandom := vRandom + [nIdCount];
        mapInfo := mapInfo[nIdCount := info];
        mapAddr := mapAddr[info.addr.service.ip := nIdCount];
        vvTried := vvTried[k := vvTried[k] + [nIdCount]];
        nIdCount := nIdCount + 1;
      }
    }

    /** The second loop: entries that find their bucket full are counted as lost. */
    method LoadTriedEntries(d: Disk)
      requires Complete(d) && State() == LoadTrieds(Key(), d, 0)
      modifies this
      ensures State() == LoadTrieds(Key(), d, |d.trieds|) && Key() == old(Key())
    {
      hide LoadTrieds, LoadNews, LessLost, LoadTried, GetTriedBucket;
      LostNone(Key(), d, State());
      var nLost := 0;
      var n := 0;
      while n < nTried
        invariant nTried == |d.trieds| && n <= |d.trieds| && |vvTried| == TRIED_BUCKET_COUNT
        invariant LessLost(Key(), d, n, State(), nLost) && Key() == old(Key())
      {
        LostLater(Key(), d, n, State(), nLost);
        var kept := LoadTriedEntry(d.trieds[n]);
        if !kept {
          nLost := nLost + 1;
        }
        n := n + 1;
      }
      LostAll(Key(), d, State(), nLost);
      nTried := nTried - nLost;
    }

    /** The last loop, for one bucket. */
    method LoadBucketRefs(b: nat, refs: seq<int>)
      requires b < |vvNew|
      modifies this
      ensures State() == LoadRefs(old(State()), b, refs) && Key() == old(Key())
    {
      var n := 0;
      while n < |refs|
        invariant n <= |refs| && b < |vvNew|
        invariant State() == LoadRefs(old(State()), b, refs[..n]) && Key() == old(Key())
      {
        assert refs[..n + 1][..n] == refs[..n];
        ghost var u := State();
        var nIndex := refs[n];
        var info := Lookup(mapInfo, nIndex);
        mapInfo := mapInfo[nIndex := info];
        if info.nRefCount < NEW_BUCKETS_PER_ADDRESS {
          mapInfo := mapInfo[nIndex := info.(nRefCount := info.nRefCount + 1)];
          vvNew := vvNew[b := vvNew[b] + {nIndex}];
        }
        assert mapInfo == LoadRef(u, b, nIndex).mapInfo;
        assert State() == LoadRef(u, b, nIndex);
        n := n + 1;
      }
      assert refs[..n] == refs;
    }

    /** The same loop for a form with another number of buckets: the indexes are only looked up. */
    method SkipBucketRefs(refs: seq<int>)
      modifies this`mapInfo
      ensures State() == TouchAll(old(State()), refs)
    {
      var n := 0;
      while n < |refs|
        invariant n <= |refs| && State() == TouchAll(old(State()), refs[..n])
      {
        assert refs[..n + 1][..n] == refs[..n];
        mapInfo := mapInfo[refs[n] := Lookup(mapInfo, refs[n])];
        n := n + 1;
      }
      assert refs[..n] == refs;
    }

    method ReadBucket(d: Disk, b: nat)
      requires b < |d.buckets| && |vvNew| == NEW_BUCKET_COUNT
      modifies this
      ensures State() == LoadBucket(d, old(State()), b) && Key() == old(Key())
    {
      hide LoadRefs, TouchAll;
      if |d.buckets| == NEW_BUCKET_COUNT {
        LoadBucketRefs(b, d.buckets[b]);
      } else {
        SkipBucketRefs(d.buckets[b]);
      }
    }

    method Deserialize(d: Disk)
      requires Complete(d)
      modifies this
      ensures Key() == Keying(d.nKey, hash64, group) && State() == Loaded(Key(), d)
    {
      hide LoadNews, LoadTrieds, LoadBuckets, LoadBucket;
      nKey, nNew, nTried := d.nKey, d.nNew, d.nTried;
      nIdCount, mapInfo, mapAddr, vRandom := 0, map[], map[], [];
      vvTried := seq(TRIED_BUCKET_COUNT, _ => []);
      vvNew := seq(NEW_BUCKET_COUNT, _ => {});
      LoadNewEntries(d);
      NewsCounts(Key(), d, |d.news|);
      TriedsStart(Key(), d);
      nIdCount := nNew;
      LoadTriedEntries(d);
      BucketsStart(Key(), d);
      var b := 0;
      while b < |d.buckets|
        invariant b <= |d.buckets|
        invariant Key() == Keying(d.nKey, hash64, group) && State() == LoadBuckets(Key(), d, b)
      {
        BucketsNext(Key(), d, b);
        ReadBucket(d, b);
        b := b + 1;
      }
    }

    /** Saved and loaded again, a manager is what it was, under other ids. */
    method SaveAndLoad() returns (ghost ids: seq<int>)
      requires Valid()
      modifies this
      ensures Isomorphic(old(State()), State(), ids)
      ensures Valid() && Key() == old(Key())
      ensures old(TimesOk(State())) ==> TimesOk(State())
    {
      ghost var t := State();
      var d, news, trieds := Serialize();
      hide Isomorphic, Consistent, TimesOk, Saves, Loaded;
      AddrRoundTrip.RoundTrip(Key(), t, d, news, trieds);
      SavesKey(Key(), t, d, news, trieds);
      Deserialize(d);
      ids := news + trieds;
    }
  }

  lemma RefsNone(n: int)
    ensures Refs([], n) == 0
  {
  }

  lemma RefsNext(vvNew: seq<set<int>>, b: nat, n: int)
    requires b < |vvNew|
    ensures Refs(vvNew[..b + 1], n) == Refs(vvNew[..b], n) + if n in vvNew[b] then 1 else 0
  {
    assert vvNew[..b + 1][..b] == vvNew[..b];
  }

  lemma SavesKey(keying: Keying, t: Tables, d: Disk, news: seq<int>, trieds: seq<int>)
    requires Saves(keying, t, d, news, trieds)
    ensures Complete(d) && keying == Keying(d.nKey, keying.hash64, keying.group)
  {
    hide Lists, Indexes;
  }

  lemma TriedsStart(keying: Keying, d: Disk)
    ensures LoadTrieds(keying, d, 0) == LoadNews(keying, d, |d.news|).(nIdCount := d.nNew)
  {
    hide LoadNews;
  }

  lemma BucketsStart(keying: Keying, d: Disk)
    ensures LoadBuckets(keying, d, 0) == LoadTrieds(keying, d, |d.trieds|)
  {
    hide LoadTrieds;
  }

  lemma BucketsNext(keying: Keying, d: Disk, b: nat)
    requires b < |d.buckets|
    ensures LoadBuckets(keying, d, b + 1) == LoadBucket(d, LoadBuckets(keying, d, b), b)
  {
    hide LoadTrieds, LoadBucket;
  }

  /** s is what the first n tried entries should give, save that the lost ones are still counted. */
  ghost predicate LessLost(keying: Keying, d: Disk, n: nat, s: Tables, nLost: nat) {
    n <= |d.trieds| && s.(nTried := s.nTried - nLost) == LoadTrieds(keying, d, n)
  }

  lemma LostNone(keying: Keying, d: Disk, s: Tables)
    requires Complete(d) && s == LoadTrieds(keying, d, 0)
    ensures LessLost(keying, d, 0, s, 0) && s.nTried == |d.trieds|
  {
    NewsCounts(keying, d, |d.news|);
    hide LoadNews;
  }

  lemma LostAll(keying: Keying, d: Disk, s: Tables, nLost: nat)
    requires LessLost(keying, d, |d.trieds|, s, nLost)
    ensures s.(nTried := s.nTried - nLost) == LoadTrieds(keying, d, |d.trieds|)
  {
  }

  /** Taking the lost entries off nTried at the end is the same as taking them off one by one. */
  lemma LostLater(keying: Keying, d: Disk, n: nat, s: Tables, nLost: nat)
    requires LessLost(keying, d, n, s, nLost) && n < |d.trieds| && |s.vvTried| == TRIED_BUCKET_COUNT
    ensures var r := LoadTried(keying, s, d.trieds[n]);
            if |s.vvTried[GetTriedBucket(keying, d.trieds[n].addr.service)]| < TRIED_BUCKET_SIZE
            then LessLost(keying, d, n + 1, r, nLost) && |r.vvTried| == TRIED_BUCKET_COUNT && r.nTried == s.nTried
            else LessLost(keying, d, n + 1, s, nLost + 1)
  {
    hide GetTriedBucket;
    var t := LoadTrieds(keying, d, n);
    assert LoadTrieds(keying, d, n + 1) == LoadTried(keying, t, d.trieds[n]);
  }

  predicate Entered(m: Infos, ids: seq<int>, entries: seq<Entry>) {
    |entries| == |ids| && forall j | 0 <= j < |ids| :: ids[j] in m && entries[j] == ToEntry(m[ids[j]])
  }

  lemma NoneVisited(ids: seq<int>, s: set<int>, m: Infos)
    requires forall i, j | 0 <= i < j < |ids| :: ids[i] < ids[j]
    ensures Visited(ids, 0, [], s) && Entered(m, [], []) && Numbered(map[], [])
  {
  }

  lemma EnterNext(m: Infos, ids: seq<int>, entries: seq<Entry>, n: int)
    requires Entered(m, ids, entries) && n in m
    ensures Entered(m, ids + [n], entries + [ToEntry(m[n])])
  {
  }

  predicate Numbered(mapUnkIds: map<int, int>, ids: seq<int>) {
    forall j | 0 <= j < |ids| :: ids[j] in mapUnkIds && mapUnkIds[ids[j]] == j
  }

  lemma NumberNext(mapUnkIds: map<int, int>, ids: seq<int>, n: int)
    requires Numbered(mapUnkIds, ids) && n !in ids
    ensures Numbered(mapUnkIds[n := |ids|], ids) && Numbered(mapUnkIds[n := |ids|], ids + [n])
  {
  }

  /** out lists, in increasing order, the members of s among the first i of ids. */
  ghost predicate Visited(ids: seq<int>, i: nat, out: seq<int>, s: set<int>) {
    && i <= |ids|
    && (forall j, k | 0 <= j < k < |ids| :: ids[j] < ids[k])
    && (forall j, k | 0 <= j < k < |out| :: out[j] < out[k])
    && (forall j | 0 <= j < |out| :: out[j] in s)
    && (forall j, k | 0 <= j < |out| && i <= k < |ids| :: out[j] < ids[k])
    && (forall j | 0 <= j < i :: ids[j] in s ==> ids[j] in out)
  }

  lemma VisitNext(ids: seq<int>, i: nat, out: seq<int>, s: set<int>)
    requires Visited(ids, i, out, s) && i < |ids|
    ensures ids[i] !in out
    ensures ids[i] in s ==> Visited(ids, i + 1, out + [ids[i]], s)
    ensures ids[i] !in s ==> Visited(ids, i + 1, out, s)
  {
    if ids[i] in s {
      var next := out + [ids[i]];
      forall j | 0 <= j < i + 1 && ids[j] in s
        ensures ids[j] in next
      {
        assert j == i ==> next[|out|] == ids[j];
      }
    }
  }

  /** The tried entries among the first i ids are listed. */
  ghost predicate ListedTo(m: Infos, ids: seq<int>, i: nat, trieds: seq<int>, entries: seq<Entry>) {
    && (forall j | 0 <= j < |ids| :: ids[j] in m)
    && (forall n | n in m :: n in ids)
    && Visited(ids, i, trieds, TriedIds(m))
    && Entered(m, trieds, entries)
  }

  lemma ListNone(keying: Keying, t: Tables, ids: seq<int>)
    requires Consistent(keying, t) && Lists(ids, t.mapInfo.Keys)
    ensures ListedTo(t.mapInfo, ids, 0, [], []) && t.nTried == |TriedIds(t.mapInfo)|
  {
    KeysInMap(ids, t.mapInfo);
    NewAreReferenced(keying, t);
  }

  lemma ListNext(m: Infos, ids: seq<int>, i: nat, trieds: seq<int>, entries: seq<Entry>)
    requires ListedTo(m, ids, i, trieds, entries) && i < |ids|
    ensures ids[i] in m
    ensures if m[ids[i]].fInTried
            then ListedTo(m, ids, i + 1, trieds + [ids[i]], entries + [ToEntry(m[ids[i]])])
            else ListedTo(m, ids, i + 1, trieds, entries)
  {
    VisitNext(ids, i, trieds, TriedIds(m));
    hide Visited;
    var n := ids[i];
    assert n in TriedIds(m) <==> m[n].fInTried;
  }

  lemma ListAll(m: Infos, ids: seq<int>, i: nat, trieds: seq<int>, entries: seq<Entry>)
    requires ListedTo(m, ids, i, trieds, entries)
    requires i == |ids| || |entries| == |TriedIds(m)|
    ensures Lists(trieds, TriedIds(m)) && Entered(m, trieds, entries)
  {
    AllVisited(ids, i, trieds, TriedIds(m), m.Keys);
  }

  /** Every member has been listed, either because all ids were visited or because the count is full. */
  lemma AllVisited(ids: seq<int>, i: nat, out: seq<int>, s: set<int>, all: set<int>)
    requires Visited(ids, i, out, s) && s <= all && forall n | n in all :: n in ids
    requires i == |ids| || |out| == |s|
    ensures Lists(out, s)
  {
    if i == |ids| {
      forall n | n in s
        ensures n in out
      {
        assert n in all;
        var j :| 0 <= j < |ids| && ids[j] == n;
      }
    } else {
      DistinctSize(out);
      assert Elements(out) <= s;
      EqualIfSameSize(Elements(out), s);
    }
  }

  lemma {:induction false} DistinctSize(s: seq<int>)
    requires NoDuplicates(s)
    ensures |Elements(s)| == |s|
  {
    if s != [] {
      var k := |s| - 1;
      DistinctSize(s[..k]);
      assert s == s[..k] + [s[k]];
      assert Elements(s) == Elements(s[..k]) + {s[k]};
      assert s[k] !in s[..k];
    }
  }

  lemma EqualIfSameSize(a: set<int>, b: set<int>)
    requires a <= b && |a| == |b|
    ensures a == b
  {
    assert b == a + (b - a);
    assert |b - a| == 0;
  }

  lemma NewAreReferenced(keying: Keying, t: Tables)
    requires Consistent(keying, t)
    ensures forall n | n in t.mapInfo :: t.mapInfo[n].nRefCount != 0 <==> n in NewIds(t.mapInfo, NoId)
    ensures t.nNew == |NewIds(t.mapInfo, NoId)| && t.nTried == |TriedIds(t.mapInfo)|
  {
  }

  lemma KeysInMap(ids: seq<int>, m: Infos)
    requires forall i | 0 <= i < |ids| :: ids[i] in m.Keys
    ensures forall i | 0 <= i < |ids| :: ids[i] in m
  {
  }

  lemma NumbersKnown(ids: seq<int>, bucket: set<int>, news: seq<int>)
    requires forall i | 0 <= i < |ids| :: ids[i] in bucket
    requires forall n | n in bucket :: n in news
    ensures forall i | 0 <= i < |ids| :: ids[i] in news
  {
    forall i | 0 <= i < |ids|
      ensures ids[i] in news
    {
      var n := ids[i];
      assert n in bucket;
    }
  }

  lemma ListsAll(ids: seq<int>, s: set<int>)
    requires Lists(ids, s)
    ensures Elements(ids) == s
  {
    forall n
      ensures n in Elements(ids) <==> n in s
    {
      if n in ids {
        var i :| 0 <= i < |ids| && ids[i] == n;
        assert ids[i] in s;
      }
    }
  }

  lemma CountsMatch(keying: Keying, t: Tables, news: seq<int>, trieds: seq<int>)
    requires Consistent(keying, t)
    requires Lists(news, NewIds(t.mapInfo, NoId)) && Lists(trieds, TriedIds(t.mapInfo))
    ensures |news| == t.nNew && |trieds| == t.nTried && NoDuplicates(news)
    ensures forall b, n | 0 <= b < |t.vvNew| && n in t.vvNew[b] :: n in news
  {
    DistinctSize(news);
    DistinctSize(trieds);
    ListsAll(news, NewIds(t.mapInfo, NoId));
    ListsAll(trieds, TriedIds(t.mapInfo));
    forall b, n | 0 <= b < |t.vvNew| && n in t.vvNew[b]
      ensures n in news
    {
      InBucketIsNew(t.mapInfo, t.vvNew, b, n, NoId, NoId);
      assert n in NewIds(t.mapInfo, NoId);
    }
  }

  lemma {:induction false} NewsCounts(keying: Keying, d: Disk, k: nat)
    requires k <= |d.news|
    ensures LoadNews(keying, d, k).nNew == d.nNew && LoadNews(keying, d, k).nTried == d.nTried
    ensures LoadNews(keying, d, k).nIdCount == 0
  {
    if k != 0 {
      NewsCounts(keying, d, k - 1);
    }
  }

  function Rotate(m: nat, r: nat): nat {
    (m + r) % NEW_BUCKET_COUNT
  }

  lemma BucketKeys(m: Infos, bucket: set<int>, n: int, info: AddrInfo)
    requires forall k | k in bucket :: k in m
    ensures bucket <= m[n := info].Keys
  {
    forall k | k in bucket
      ensures k in m[n := info].Keys
    {
    }
  }

  lemma PlaceOf(m: Infos, vRandom: seq<int>, n: int)
    requires RandomOk(m, vRandom) && n in m
    ensures 0 <= m[n].nRandomPos < |vRandom|
  {
  }

  lemma NothingChosen(m: Infos, s: seq<int>)
    requires NoDuplicates(s) && forall n | n in s :: n in m
    ensures Draws(|s|, []) && Chooses(m, s, []) == Choice(s, NoId, NoId)
  {
  }

  /** One more draw. */
  lemma ChoosesNext(m: Infos, s: seq<int>, draws: seq<nat>, pos: nat)
    requires NoDuplicates(s) && (forall n | n in s :: n in m) && Draws(|s|, draws) && |draws| < 4
    requires |draws| <= pos < |s|
    ensures Draws(|s|, draws + [pos])
    ensures var c, c' := Chooses(m, s, draws), Chooses(m, s, draws + [pos]);
            var i := |draws|;
            && |c.vTried| == |s| && c.vTried[pos] in m && (i > 0 ==> c.nOldest in m)
            && c'.vTried == c.vTried[pos := c.vTried[i]][i := c.vTried[pos]]
            && if i == 0 || m[c.vTried[pos]].nLastSuccess < m[c.nOldest].nLastSuccess
               then c'.nOldest == c.vTried[pos] && c'.nOldestPos == pos
               else c'.nOldest == c.nOldest && c'.nOldestPos == c.nOldestPos
  {
    assert (draws + [pos])[..|draws|] == draws;
    var c := Chooses(m, s, draws);
    assert c.vTried[pos] in c.vTried;
    assert c.vTried[pos := c.vTried[|draws|]][|draws| := c.vTried[pos]] == SwapSeq(c.vTried, |draws|, pos);
  }

  lemma SameLength(s: seq<int>, s': seq<int>)
    requires Rearranged(s, s')
    ensures |s| == |s'|
  {
  }

  /** The id about to be placed is not in the bucket, so its count does not matter to what leaves it. */
  lemma SameRemoves(t: Tables, n: int, b: nat, nNow: int, result: int, e: int)
    requires n in t.mapInfo && b < |t.vvNew| && n !in t.vvNew[b]
    requires forall m | m in t.vvNew[b] :: m in t.mapInfo
    requires Removes(Pend(t, n).mapInfo, t.vvNew[b], nNow, result, e)
    ensures Removes(t.mapInfo, t.vvNew[b], nNow, result, e) && MayLeave(t.mapInfo, t.vvNew[b], nNow, e)
  {
    hide IsTerrible;
    assert forall m | m in t.vvNew[b] :: Pend(t, n).mapInfo[m] == t.mapInfo[m];
  }

  lemma SwappedIs(keying: Keying, t: Tables, n: int, b: nat, e: int)
    requires RandomOk(t.mapInfo, t.vRandom) && n in t.mapInfo && b < |t.vvNew| && n !in t.vvNew[b]
    requires Inv(keying, Pend(t, n), n, NoId) && e in t.vvNew[b]
    ensures e in t.mapInfo
    ensures RandomOk(Pend(t, n).mapInfo, t.vRandom)
    ensures DropRef(Pend(t, n), b, e).vvNew == t.vvNew[b := t.vvNew[b] - {e}]
    ensures Swapped(t, n, b, e) == PutInBucket(DropRef(Pend(t, n), b, e), b, n)
  {
    hide RandomOk, DropRef, Inv;
    PendRandom(t, n);
    PlacePending(keying, Pend(t, n), n, b, e);
    assert e in Pend(t, n).mapInfo.Keys;
  }

  lemma AddrMatches(keying: Keying, t: Tables, ip: nat)
    requires Consistent(keying, t)
    ensures ip in t.mapAddr ==> t.mapAddr[ip] in t.mapInfo && t.mapInfo[t.mapAddr[ip]].Ip() == ip
  {
  }

  lemma InSomeBucket(keying: Keying, t: Tables, n: int)
    requires Consistent(keying, t) && n in t.mapInfo && !t.mapInfo[n].fInTried
    ensures |t.vvNew| == NEW_BUCKET_COUNT && exists b :: 0 <= b < |t.vvNew| && n in t.vvNew[b]
  {
    RefsZero(t.vvNew, n);
  }

  lemma RefsPositive(keying: Keying, t: Tables, n: int)
    requires Consistent(keying, t) && n in t.mapInfo && !t.mapInfo[n].fInTried
    ensures 1 <= t.mapInfo[n].nRefCount <= NEW_BUCKETS_PER_ADDRESS
  {
  }

  lemma BucketIds(keying: Keying, t: Tables, b: nat, pending: int, limbo: int)
    requires Inv(keying, t, pending, limbo) && b < |t.vvNew|
    ensures forall m | m in t.vvNew[b] :: m in t.mapInfo
  {
  }

  lemma ReorderedSelf(keying: Keying, t: Tables)
    requires Consistent(keying, t)
    ensures Reordered(t, t)
  {
  }

  lemma SwapReorders(t: Tables, s: Tables, i: nat, j: nat)
    requires Reordered(t, s) && i <= j < |s.vRandom|
    ensures var r := SwapRandom(s, i, j);
            && Reordered(t, r)
            && |r.vRandom| == |s.vRandom|
            && (forall l | 0 <= l < i :: r.vRandom[l] == s.vRandom[l])
            && (forall n | n in s.mapInfo :: n in r.mapInfo && r.mapInfo[n].addr == s.mapInfo[n].addr)
            && r.vRandom[i] in r.mapInfo
  {
    SwapIsRandom(s, i, j);
    SwapEntries(s, i, j);
    hide RandomOk, SwapRandom;
    var r := SwapRandom(s, i, j);
    forall n | n in t.mapInfo
      ensures r.mapInfo[n] == t.mapInfo[n].(nRandomPos := r.mapInfo[n].nRandomPos)
    {
      assert s.mapInfo[n] == t.mapInfo[n].(nRandomPos := s.mapInfo[n].nRandomPos);
    }
  }

  lemma SwapEntries(s: Tables, i: nat, j: nat)
    requires RandomOk(s.mapInfo, s.vRandom) && i <= j < |s.vRandom|
    ensures var r := SwapRandom(s, i, j);
            && r == s.(mapInfo := r.mapInfo, vRandom := r.vRandom)
            && r.mapInfo.Keys == s.mapInfo.Keys
            && |r.vRandom| == |s.vRandom|
            && (forall l | 0 <= l < i :: r.vRandom[l] == s.vRandom[l])
            && (forall n | n in s.mapInfo :: r.mapInfo[n] == s.mapInfo[n].(nRandomPos := r.mapInfo[n].nRandomPos))
            && r.vRandom[i] in r.mapInfo
  {
    assert s.vRandom[i] in s.mapInfo && s.vRandom[j] in s.mapInfo;
    hide RandomOk;
    assert SwapRandom(s, i, j).mapInfo.Keys == s.mapInfo.Keys;
  }

  lemma RefsExact(keying: Keying, t: Tables, n: int)
    requires Consistent(keying, t) && n in t.mapInfo
    ensures n != NoId && t.mapInfo[n].nRefCount == Refs(t.vvNew, n)
  {
  }

  lemma SameMembers(s: seq<int>, s': seq<int>, i: nat)
    requires Rearranged(s, s') && i < |s'|
    ensures s'[i] in s
  {
    assert s'[i] in s';
  }

  lemma BucketMembers(keying: Keying, m: Infos, vvTried: seq<seq<int>>, k: nat, limbo: int)
    requires |vvTried| == TRIED_BUCKET_COUNT && TriedOk(keying, m, vvTried) && k < |vvTried|
    requires limbo in m && !m[limbo].fInTried
    ensures NoDuplicates(vvTried[k])
    ensures forall n | n in vvTried[k] :: n in m && n != limbo
  {
    hide GetTriedBucket;
  }

  /** The entries below a position of the ascending list are those visited before it. */
  lemma EarlierFine(ids: seq<int>, i: nat, bucket: set<int>, m: Infos, nNow: int)
    requires i <= |ids| && bucket <= m.Keys
    requires forall k, j | 0 <= k < j < |ids| :: ids[k] < ids[j]
    requires forall n | n in bucket :: n in ids
    requires forall j | 0 <= j < i :: ids[j] in m && !IsTerrible(m[ids[j]], nNow)
    ensures forall n | n in bucket && (i == |ids| || n < ids[i]) :: !IsTerrible(m[n], nNow)
  {
    forall n | n in bucket && (i == |ids| || n < ids[i])
      ensures !IsTerrible(m[n], nNow)
    {
      assert n in ids;
      var j :| 0 <= j < |ids| && ids[j] == n;
      assert j < i;
    }
  }

  /** The input that breaks the check's condition on tried entries: a new manager, one address added to it
      and marked good at time 0. */
  method GoodAtZero(hash64: seq<nat> -> nat, group: nat -> nat, randomKey: nat, addr: Address, source: nat, nNow: int)
    returns (addrman: AddrMan)
    ensures fresh(addrman) && addrman.Valid() && !TimesOk(addrman.State())
  {
    addrman := new AddrMan(hash64, group, randomKey);
    ghost var t := addrman.State();
    var _ := addrman.Add(addr, source, 0, nNow, true);
    AddrLaws.AddedEntry(addrman.Key(), t, addr, source, 0, nNow, addrman.State());
    hide TimesOk, Known, Consistent, Does;
    addrman.Good(addr.service, 0);
  }
}

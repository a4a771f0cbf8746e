/** What each operation may do to the tables (src/addrman.cpp:149-387, 493-527), for every outcome of its
    random choices and every clock, and the theorem that all runs of them keep the invariant. */
module AddrRuns {
  import opened AddrTables
  import opened AddrOps

  // ---------- Choosing what leaves a full bucket ----------

  function IsTerrible(info: AddrInfo, nNow: int): bool {
    if info.nLastTry != 0 && info.nLastTry >= nNow - 60 then false
    else if info.addr.nTime > nNow + 10 * 60 then true
    else if info.addr.nTime == 0 || nNow - info.addr.nTime > 30 * 86400 then true
    else if info.nLastSuccess == 0 && info.nAttempts >= 3 then true
    else nNow - info.nLastSuccess > 7 * 86400 && info.nAttempts >= 10
  }

  // ---------- The operations ----------

  /** The entry of exactly this service, port included, if there is one. */
  predicate Known(t: Tables, service: Service) {
    && service.ip in t.mapAddr
    && t.mapAddr[service.ip] in t.mapInfo
    && t.mapInfo[t.mapAddr[service.ip]].addr.service == service
  }

  function ToUint32(n: int): nat {
    n % 0x1_0000_0000
  }

  function Attempted(info: AddrInfo, nTime: int): AddrInfo {
    info.(nLastTry := nTime, nAttempts := info.nAttempts + 1)
  }

  function ConnectedTo(info: AddrInfo, nTime: int): AddrInfo {
    if nTime - info.addr.nTime > 20 * 60 then info.(addr := info.addr.(nTime := ToUint32(nTime))) else info
  }

  function Succeeded(info: AddrInfo, nTime: int): AddrInfo {
    info.(nLastSuccess := nTime, nLastTry := nTime, addr := info.addr.(nTime := ToUint32(nTime)), nAttempts := 0)
  }

  function AfterPenalty(nTime: int, nTimePenalty: int): nat {
    ToUint32(if 0 < nTime - nTimePenalty then nTime - nTimePenalty else 0)
  }

  /** The refresh an address that is heard of again gives its entry. */
  function Refreshed(info: AddrInfo, addr: Address, nTimePenalty: int, nNow: int): AddrInfo {
    var nUpdateInterval := if nNow - addr.nTime < 24 * 60 * 60 then 60 * 60 else 24 * 60 * 60;
    var newer := addr.nTime != 0
                 && (info.addr.nTime == 0 || info.addr.nTime < addr.nTime - nUpdateInterval - nTimePenalty);
    var nTime := if newer then AfterPenalty(addr.nTime, nTimePenalty) else info.addr.nTime;
    info.(addr := info.addr.(nTime := nTime, nServices := info.addr.nServices + addr.nServices))
  }

  /** Whether a refreshed entry may get one more reference. */
  predicate MayGrow(info: AddrInfo, addr: Address) {
    && addr.nTime != 0 && (info.addr.nTime == 0 || info.addr.nTime < addr.nTime)
    && !info.fInTried
    && info.nRefCount != NEW_BUCKETS_PER_ADDRESS
  }

  /** Making room in a bucket lets e go with that result: 0 for the terrible entry with the least id, 1
      when there is none, for any that may be the oldest of those drawn. */
  predicate Removes(m: Infos, bucket: set<int>, nNow: int, result: int, e: int) {
    && e in bucket && e in m
    && if result == 0 then
         IsTerrible(m[e], nNow) && forall n | n in bucket && n in m && n < e :: !IsTerrible(m[n], nNow)
       else
         result == 1 && forall n | n in bucket && n in m :: !IsTerrible(m[n], nNow)
  }

  predicate MayLeave(m: Infos, bucket: set<int>, nNow: int, e: int) {
    Removes(m, bucket, nNow, 0, e) || Removes(m, bucket, nNow, 1, e)
  }

  /** t with id n put in bucket b, in the place of another id if the bucket is full. */
  ghost predicate Placed(t: Tables, n: int, b: nat, nNow: int, t': Tables)
    requires RandomOk(t.mapInfo, t.vRandom) && n in t.mapInfo && b < |t.vvNew|
    requires forall m | m in t.vvNew[b] :: m in t.mapInfo
  {
    PendRandom(t, n);
    if n in t.vvNew[b] then t' == t
    else if |t.vvNew[b]| == NEW_BUCKET_SIZE then
      exists e | MayLeave(t.mapInfo, t.vvNew[b], nNow, e) :: t' == Swapped(t, n, b, e)
    else t' == PutInBucket(Pend(t, n), b, n)
  }

  lemma PendRandom(t: Tables, n: int)
    requires RandomOk(t.mapInfo, t.vRandom) && n in t.mapInfo
    ensures RandomOk(Pend(t, n).mapInfo, t.vRandom)
  {
    hide RandomOk;
    KeepRandom(t.mapInfo, Pend(t, n).mapInfo, t.vRandom);
  }

  /** Id n in bucket b in the place of e. */
  function Swapped(t: Tables, n: int, b: nat, e: int): Tables
    requires RandomOk(t.mapInfo, t.vRandom) && n in t.mapInfo && b < |t.vvNew| && e in t.mapInfo
  {
    PendRandom(t, n);
    var s := DropRef(Pend(t, n), b, e);
    s.(vvNew := t.vvNew[b := t.vvNew[b] - {e} + {n}])
  }

  function Counted(t: Tables): Tables {
    t.(nNew := t.nNew + 1)
  }

  ghost predicate Added(keying: Keying, t: Tables, addr: Address, source: nat, nTimePenalty: int, nNow: int, t': Tables)
    requires Consistent(keying, t)
  {
    var ip := addr.service.ip;
    var b := GetNewBucket(keying, ip, source);
    if ip in t.mapAddr then
      var n := t.mapAddr[ip];
      var info := Refreshed(t.mapInfo[n], addr, nTimePenalty, nNow);
      var s := SetInfo(t, n, info);
      SetInfoRandom(keying, t, n, info);
      t' == s || (MayGrow(info, addr) && Placed(s, n, b, nNow, t'))
    else
      var s := Counted(Create(t, addr.(nTime := AfterPenalty(addr.nTime, nTimePenalty)), source));
      CreatedRandom(keying, t, addr.(nTime := AfterPenalty(addr.nTime, nTimePenalty)), source);
      Placed(s, t.nIdCount, b, nNow, t')
  }

  lemma SetInfoRandom(keying: Keying, t: Tables, n: int, info: AddrInfo)
    requires Consistent(keying, t) && n in t.mapInfo
    requires Alike(t.mapInfo[n], info) && t.mapInfo[n].nRandomPos == info.nRandomPos
    ensures RandomOk(SetInfo(t, n, info).mapInfo, t.vRandom)
    ensures forall b, m | 0 <= b < |t.vvNew| && m in t.vvNew[b] :: m in SetInfo(t, n, info).mapInfo
  {
    SetInfoKeeps(keying, t, n, info, NoId, NoId);
  }

  lemma CreatedRandom(keying: Keying, t: Tables, addr: Address, source: nat)
    requires Consistent(keying, t) && addr.service.ip !in t.mapAddr
    ensures RandomOk(Create(t, addr, source).mapInfo, Create(t, addr, source).vRandom)
    ensures forall b, m | 0 <= b < |t.vvNew| && m in t.vvNew[b] :: m in Create(t, addr, source).mapInfo
  {
    CreateMakesLimbo(keying, t, addr, source);
  }

  /** The victim at pos of the full bucket k goes back to a new bucket, its own or the one n came from. */
  function Evicted(keying: Keying, s: Tables, n: int, k: nat, pos: nat, origin: nat): Tables
    requires n in s.mapInfo && k < |s.vvTried| && pos < |s.vvTried[k]| && s.vvTried[k][pos] in s.mapInfo
    requires |s.vvNew| == NEW_BUCKET_COUNT && origin < NEW_BUCKET_COUNT
  {
    var victim := s.vvTried[k][pos];
    var r := Replace(s, n, k, pos);
    var b := GetNewBucket(keying, r.mapInfo[victim].Ip(), r.mapInfo[victim].source);
    PutInNew(r, victim, if |r.vvNew[b]| < NEW_BUCKET_SIZE then b else origin)
  }

  /** The list after some rounds of choosing, the least recently reached candidate and the position told. */
  datatype Choice = Choice(vTried: seq<int>, nOldest: int, nOldestPos: int)

  /** The positions drawn, at most four of them, each from its round's place on. */
  predicate Draws(n: nat, draws: seq<nat>) {
    |draws| <= 4 && |draws| <= n && forall i | 0 <= i < |draws| :: i <= draws[i] < n
  }

  /** What choosing from a bucket comes to for these draws. */
  function Chooses(m: Infos, s: seq<int>, draws: seq<nat>): (c: Choice)
    requires NoDuplicates(s) && (forall n | n in s :: n in m) && Draws(|s|, draws)
    ensures Rearranged(s, c.vTried)
    ensures draws != [] ==> c.nOldest in s && 0 <= c.nOldestPos < |s|
  {
    if draws == [] then Choice(s, NoId, NoId)
    else
      var k, pos := |draws| - 1, draws[|draws| - 1];
      var c := Chooses(m, s, draws[..k]);
      var nTemp := c.vTried[pos];
      SwapRearranges(s, c.vTried, k, pos);
      assert nTemp in c.vTried;
      var v := SwapSeq(c.vTried, k, pos);
      if k == 0 || m[nTemp].nLastSuccess < m[c.nOldest].nLastSuccess then Choice(v, nTemp, pos) else c.(vTried := v)
  }

  /** A list and a position that choosing from s may give. */
  ghost predicate Chosen(m: Infos, s: seq<int>, vTried: seq<int>, pos: int)
    requires NoDuplicates(s) && (forall n | n in s :: n in m)
  {
    exists draws: seq<nat> ::
      Draws(|s|, draws) && |draws| == (if |s| < 4 then |s| else 4)
      && Chooses(m, s, draws).vTried == vTried && Chooses(m, s, draws).nOldestPos == pos
  }

  /** Id n, one of whose buckets is origin, moved to its tried bucket. */
  ghost predicate Moved(keying: Keying, t: Tables, n: int, origin: nat, t': Tables)
    requires n in t.mapInfo && |t.vvTried| == TRIED_BUCKET_COUNT && |t.vvNew| == NEW_BUCKET_COUNT
  {
    var s := TakeFromNew(t, n);
    var k := GetTriedBucket(keying, t.mapInfo[n].addr.service);
    if |s.vvTried[k]| < TRIED_BUCKET_SIZE then t' == PutInTried(s, n, k)
    else
      exists vTried: seq<int>, pos: nat ::
        && Rearranged(s.vvTried[k], vTried)
        && NoDuplicates(s.vvTried[k]) && (forall m | m in s.vvTried[k] :: m in s.mapInfo)
        && Chosen(s.mapInfo, s.vvTried[k], vTried, pos)
        && pos < |vTried| && vTried[pos] in s.mapInfo && origin < NEW_BUCKET_COUNT
        && t' == Evicted(keying, s.(vvTried := s.vvTried[k := vTried]), n, k, pos, origin)
  }

  ghost predicate MadeGood(keying: Keying, t: Tables, service: Service, nTime: int, t': Tables)
    requires Consistent(keying, t)
  {
    if !Known(t, service) then t' == t
    else
      var n := t.mapAddr[service.ip];
      var s := SetInfo(t, n, Succeeded(t.mapInfo[n], nTime));
      if t.mapInfo[n].fInTried then t' == s
      else exists origin: nat | origin < |t.vvNew| && n in t.vvNew[origin] :: Moved(keying, s, n, origin, t')
  }

  /** Only the order of vRandom differs. */
  predicate Reordered(t: Tables, t': Tables) {
    && t' == t.(mapInfo := t'.mapInfo, vRandom := t'.vRandom)
    && t.mapInfo.Keys == t'.mapInfo.Keys
    && RandomOk(t'.mapInfo, t'.vRandom)
    && forall n | n in t.mapInfo :: t'.mapInfo[n] == t.mapInfo[n].(nRandomPos := t'.mapInfo[n].nRandomPos)
  }

  datatype Op =
    | Add(addr: Address, source: nat, nTimePenalty: int, nNow: int, routable: bool)
    | Good(service: Service, nTime: int)
    | Attempt(service: Service, nTime: int)
    | Connected(service: Service, nTime: int)
    | GetAddr

  ghost predicate Does(keying: Keying, op: Op, t: Tables, t': Tables)
    requires Consistent(keying, t)
  {
    match op
    case Add(addr, source, nTimePenalty, nNow, routable) =>
      if routable then Added(keying, t, addr, source, nTimePenalty, nNow, t') else t' == t
    case Good(service, nTime) => MadeGood(keying, t, service, nTime, t')
    case Attempt(service, nTime) =>
      t' == if Known(t, service) then
              SetInfo(t, t.mapAddr[service.ip], Attempted(t.mapInfo[t.mapAddr[service.ip]], nTime)) else t
    case Connected(service, nTime) =>
      t' == if Known(t, service) then
              SetInfo(t, t.mapAddr[service.ip], ConnectedTo(t.mapInfo[t.mapAddr[service.ip]], nTime)) else t
    case GetAddr => Reordered(t, t')
  }

  /** Exactly when an operation keeps the times in order: an entry it marks needs a positive time to
      be good at, and a time that is not negative to be tried at. */
  predicate TimeFits(t: Tables, op: Op) {
    match op
    case Good(service, nTime) => Known(t, service) ==> 0 < nTime
    case Attempt(service, nTime) => Known(t, service) ==> 0 <= nTime
    case _ => true
  }

  // ---------- Each operation keeps the invariant ----------

  lemma ReorderedKeeps(keying: Keying, t: Tables, t': Tables)
    requires Consistent(keying, t) && Reordered(t, t')
    ensures Consistent(keying, t')
  {
    hide BucketsOk, IdsOk, RandomOk, AddrOk, NewOk, TriedOk, CountsOk;
    KeepIds(t.mapInfo, t'.mapInfo, t.nIdCount);
    KeepAddr(t.mapInfo, t'.mapInfo, t.mapAddr);
    KeepTried(keying, t.mapInfo, t'.mapInfo, t.vvTried);
    KeepNew(t.mapInfo, t'.mapInfo, t.vvNew, NoId, NoId);
    KeepCounts(t.mapInfo, t'.mapInfo, t.nNew, t.nTried, NoId);
  }

  lemma ReorderedTimes(t: Tables, t': Tables)
    requires Reordered(t, t') && TimesOk(t)
    ensures TimesOk(t')
  {
    hide RandomOk;
  }

  /** Room is made in a full bucket by dropping any one reference in it. */
  lemma PlacePending(keying: Keying, s: Tables, n: int, b: nat, e: int)
    requires Inv(keying, s, n, NoId) && n in s.mapInfo && b < |s.vvNew| && n !in s.vvNew[b] && e in s.vvNew[b]
    ensures e in s.mapInfo
    ensures DropRef(s, b, e).vvNew == s.vvNew[b := s.vvNew[b] - {e}]
    ensures Consistent(keying, PutInBucket(DropRef(s, b, e), b, n))
    ensures PutInBucket(DropRef(s, b, e), b, n).vvNew == s.vvNew[b := s.vvNew[b] - {e} + {n}]
  {
    hide BucketsOk, IdsOk, RandomOk, AddrOk, NewOk, TriedOk, CountsOk;
    DropRefKeeps(keying, s, b, e, n);
    RoomMade(s.vvNew, s.vvTried, b, e);
    hide DropRef;
    PutPending(keying, DropRef(s, b, e), b, n);
  }

  lemma RoomMade(vvNew: seq<set<int>>, vvTried: seq<seq<int>>, b: nat, e: int)
    requires BucketsOk(vvNew, vvTried) && b < |vvNew| && e in vvNew[b]
    ensures |vvNew[b] - {e}| < NEW_BUCKET_SIZE
  {
    assert vvNew[b] == (vvNew[b] - {e}) + {e};
  }

  lemma PlacedKeeps(keying: Keying, t: Tables, n: int, b: nat, nNow: int, t': Tables)
    requires RandomOk(t.mapInfo, t.vRandom) && n in t.mapInfo && b < |t.vvNew|
    requires forall m | m in t.vvNew[b] :: m in t.mapInfo
    requires Placed(t, n, b, nNow, t')
    requires n !in t.vvNew[b] ==> Inv(keying, Pend(t, n), n, NoId)
    requires n in t.vvNew[b] ==> Consistent(keying, t)
    ensures Consistent(keying, t')
  {
    hide BucketsOk, IdsOk, RandomOk, AddrOk, NewOk, TriedOk, CountsOk, DropRef;
    if n !in t.vvNew[b] {
      var s := Pend(t, n);
      if |t.vvNew[b]| == NEW_BUCKET_SIZE {
        var e :| MayLeave(t.mapInfo, t.vvNew[b], nNow, e) && t' == Swapped(t, n, b, e);
        PlacePending(keying, s, n, b, e);
        assert t' == PutInBucket(DropRef(s, b, e), b, n);
      } else {
        BucketSize(t.vvNew, t.vvTried, b);
        PutPending(keying, s, b, n);
      }
    }
  }

  lemma BucketSize(vvNew: seq<set<int>>, vvTried: seq<seq<int>>, b: nat)
    requires BucketsOk(vvNew, vvTried) && b < |vvNew|
    ensures |vvNew[b]| <= NEW_BUCKET_SIZE
  {
  }

  lemma AddedAgainKeeps(keying: Keying, t: Tables, n: int, info: AddrInfo, addr: Address, b: nat,
                        nNow: int, t': Tables)
    requires Consistent(keying, t) && n in t.mapInfo && b < |t.vvNew|
    requires Alike(t.mapInfo[n], info) && t.mapInfo[n].nRandomPos == info.nRandomPos
    requires RandomOk(SetInfo(t, n, info).mapInfo, t.vRandom)
    requires forall m | m in t.vvNew[b] :: m in SetInfo(t, n, info).mapInfo
    requires MayGrow(info, addr) && Placed(SetInfo(t, n, info), n, b, nNow, t')
    ensures Consistent(keying, t')
  {
    assert info.nRefCount < NEW_BUCKETS_PER_ADDRESS;
    hide BucketsOk, IdsOk, RandomOk, AddrOk, NewOk, TriedOk, CountsOk, Placed;
    var s := SetInfo(t, n, info);
    SetInfoKeeps(keying, t, n, info, NoId, NoId);
    PendFromNew(keying, s, n);
    PlacedKeeps(keying, s, n, b, nNow, t');
  }

  lemma AddedNewKeeps(keying: Keying, t: Tables, addr: Address, source: nat, b: nat, nNow: int, t': Tables)
    requires Consistent(keying, t) && addr.service.ip !in t.mapAddr && b < |t.vvNew|
    requires var s := Counted(Create(t, addr, source));
             && RandomOk(s.mapInfo, s.vRandom)
             && (forall m | m in s.vvNew[b] :: m in s.mapInfo)
             && Placed(s, t.nIdCount, b, nNow, t')
    ensures Consistent(keying, t')
  {
    hide BucketsOk, IdsOk, RandomOk, AddrOk, NewOk, TriedOk, CountsOk, Placed;
    NotInBuckets(keying, t, b);
    CreateMakesLimbo(keying, t, addr, source);
    PendFromLimbo(keying, Create(t, addr, source), t.nIdCount);
    PlacedKeeps(keying, Counted(Create(t, addr, source)), t.nIdCount, b, nNow, t');
  }

  lemma NotInBuckets(keying: Keying, t: Tables, b: nat)
    requires Consistent(keying, t) && b < |t.vvNew|
    ensures t.nIdCount !in t.vvNew[b] && t.nIdCount != NoId
  {
    if t.nIdCount in t.vvNew[b] {
      hide NewOk;
      InBucketIsNew(t.mapInfo, t.vvNew, b, t.nIdCount, NoId, NoId);
    }
  }

  lemma AddedKeeps(keying: Keying, t: Tables, addr: Address, source: nat, nTimePenalty: int, nNow: int, t': Tables)
    requires Consistent(keying, t) && Added(keying, t, addr, source, nTimePenalty, nNow, t')
    ensures Consistent(keying, t')
  {
    hide BucketsOk, IdsOk, RandomOk, NewOk, TriedOk, CountsOk, Placed, GetNewBucket;
    var ip := addr.service.ip;
    var b := GetNewBucket(keying, ip, source);
    if ip in t.mapAddr {
      var n := t.mapAddr[ip];
      var info := Refreshed(t.mapInfo[n], addr, nTimePenalty, nNow);
      SetInfoKeeps(keying, t, n, info, NoId, NoId);
      if t' != SetInfo(t, n, info) {
        SetInfoRandom(keying, t, n, info);
        AddedAgainKeeps(keying, t, n, info, addr, b, nNow, t');
      }
    } else {
      var aged := addr.(nTime := AfterPenalty(addr.nTime, nTimePenalty));
      CreatedRandom(keying, t, aged, source);
      AddedNewKeeps(keying, t, aged, source, b, nNow, t');
    }
  }

  /** When the victim's own new bucket is full there is room in the bucket n came from. */
  lemma MovedKeeps(keying: Keying, t: Tables, n: int, origin: nat, t': Tables)
    requires Consistent(keying, t) && origin < |t.vvNew| && n in t.vvNew[origin] && n in t.mapInfo
    requires Moved(keying, t, n, origin, t')
    ensures Consistent(keying, t')
  {
    hide BucketsOk, IdsOk, RandomOk, AddrOk, NewOk, TriedOk, CountsOk, GetTriedBucket, GetNewBucket, Chosen;
    InBucketIsNew(t.mapInfo, t.vvNew, origin, n, NoId, NoId);
    TakeMakesLimbo(keying, t, n);
    var s := TakeFromNew(t, n);
    RoomMade(t.vvNew, t.vvTried, origin, n);
    var k := GetTriedBucket(keying, t.mapInfo[n].addr.service);
    NotNoId(keying, t, n);
    if |s.vvTried[k]| < TRIED_BUCKET_SIZE {
      PutInTriedKeeps(keying, s, n);
    } else {
      var vTried: seq<int>, pos: nat :|
        && Rearranged(s.vvTried[k], vTried)
        && pos < |vTried| && vTried[pos] in s.mapInfo && origin < NEW_BUCKET_COUNT
        && t' == Evicted(keying, s.(vvTried := s.vvTried[k := vTried]), n, k, pos, origin);
      var u := s.(vvTried := s.vvTried[k := vTried]);
      ShuffleKeeps(keying, s, k, vTried, NoId, n);
      EvictedKeeps(keying, u, n, k, pos, origin);
    }
  }

  lemma NotNoId(keying: Keying, t: Tables, n: int)
    requires Consistent(keying, t) && n in t.mapInfo
    ensures n != NoId
  {
  }

  lemma EvictedKeeps(keying: Keying, s: Tables, n: int, k: nat, pos: nat, origin: nat)
    requires Inv(keying, s, NoId, n) && n != NoId && n in s.mapInfo
    requires k == GetTriedBucket(keying, s.mapInfo[n].addr.service) && pos < |s.vvTried[k]|
    requires s.vvTried[k][pos] in s.mapInfo
    requires origin < NEW_BUCKET_COUNT && |s.vvNew[origin]| < NEW_BUCKET_SIZE
    ensures Consistent(keying, Evicted(keying, s, n, k, pos, origin))
  {
    var victim := s.vvTried[k][pos];
    assert victim != NoId;
    hide BucketsOk, IdsOk, RandomOk, AddrOk, NewOk, TriedOk, CountsOk, GetTriedBucket, GetNewBucket;
    ReplaceKeeps(keying, s, n, pos);
    var r := Replace(s, n, k, pos);
    var b := GetNewBucket(keying, r.mapInfo[victim].Ip(), r.mapInfo[victim].source);
    PutInNewKeeps(keying, r, victim, if |r.vvNew[b]| < NEW_BUCKET_SIZE then b else origin);
  }

  /** Every outcome of every operation keeps the invariant. */
  lemma StepKeepsInv(keying: Keying, op: Op, t: Tables, t': Tables)
    requires Consistent(keying, t) && Does(keying, op, t, t')
    ensures Consistent(keying, t')
  {
    hide GetTriedBucket, GetNewBucket, Moved, Added;
    match op
    case Add(addr, source, nTimePenalty, nNow, routable) =>
      if routable {
        AddedKeeps(keying, t, addr, source, nTimePenalty, nNow, t');
      }
    case Good(service, nTime) =>
      if Known(t, service) {
        var n := t.mapAddr[service.ip];
        SetInfoKeeps(keying, t, n, Succeeded(t.mapInfo[n], nTime), NoId, NoId);
        var s := SetInfo(t, n, Succeeded(t.mapInfo[n], nTime));
        if !t.mapInfo[n].fInTried {
          var origin: nat :| origin < |t.vvNew| && n in t.vvNew[origin] && Moved(keying, s, n, origin, t');
          MovedKeeps(keying, s, n, origin, t');
        }
      }
    case Attempt(service, nTime) =>
      if Known(t, service) {
        var n := t.mapAddr[service.ip];
        SetInfoKeeps(keying, t, n, Attempted(t.mapInfo[n], nTime), NoId, NoId);
      }
    case Connected(service, nTime) =>
      if Known(t, service) {
        var n := t.mapAddr[service.ip];
        SetInfoKeeps(keying, t, n, ConnectedTo(t.mapInfo[n], nTime), NoId, NoId);
      }
    case GetAddr => ReorderedKeeps(keying, t, t');
  }

  // ---------- Times ----------

  /** The times of every entry are those it had, zero if it is new; only n may have become tried. */
  predicate TimesFrom(m: Infos, m': Infos, n: int) {
    forall k | k in m' ::
      && (k in m ==> m'[k].nLastTry == m[k].nLastTry && m'[k].nLastSuccess == m[k].nLastSuccess)
      && (k !in m ==> m'[k].nLastTry == 0 && m'[k].nLastSuccess == 0 && !m'[k].fInTried)
      && (k in m && m'[k].fInTried ==> m[k].fInTried || k == n)
  }

  lemma PlacedTimes(t: Tables, n: int, b: nat, nNow: int, t': Tables)
    requires RandomOk(t.mapInfo, t.vRandom) && n in t.mapInfo && b < |t.vvNew|
    requires forall m | m in t.vvNew[b] :: m in t.mapInfo
    requires Placed(t, n, b, nNow, t')
    ensures TimesFrom(t.mapInfo, t'.mapInfo, NoId)
  {
    if n !in t.vvNew[b] && |t.vvNew[b]| == NEW_BUCKET_SIZE {
      var e :| MayLeave(t.mapInfo, t.vvNew[b], nNow, e) && t' == Swapped(t, n, b, e);
      SwappedTimes(t, n, b, e);
    }
  }

  lemma SwappedTimes(t: Tables, n: int, b: nat, e: int)
    requires RandomOk(t.mapInfo, t.vRandom) && n in t.mapInfo && b < |t.vvNew| && e in t.mapInfo
    ensures TimesFrom(t.mapInfo, Swapped(t, n, b, e).mapInfo, NoId)
  {
    hide RandomOk, Delete;
    PendRandom(t, n);
    var p := Pend(t, n);
    var s := Unref(p, b, e);
    assert TimesFrom(t.mapInfo, s.mapInfo, NoId);
    hide Unref, Pend;
    if p.mapInfo[e].nRefCount == 1 {
      DeleteTimes(s.(nNew := s.nNew - 1), e);
    }
  }

  lemma DeleteTimes(t: Tables, n: int)
    requires RandomOk(t.mapInfo, t.vRandom) && n in t.mapInfo
    ensures TimesFrom(t.mapInfo, Delete(t, n).mapInfo, NoId)
  {
  }

  lemma AddedTimes(keying: Keying, t: Tables, addr: Address, source: nat, nTimePenalty: int, nNow: int, t': Tables)
    requires Consistent(keying, t) && Added(keying, t, addr, source, nTimePenalty, nNow, t') && TimesOk(t)
    ensures TimesOk(t')
  {
    hide GetNewBucket, Placed;
    var ip := addr.service.ip;
    var b := GetNewBucket(keying, ip, source);
    if ip in t.mapAddr {
      var n := t.mapAddr[ip];
      var info := Refreshed(t.mapInfo[n], addr, nTimePenalty, nNow);
      SetInfoRandom(keying, t, n, info);
      hide BucketsOk, IdsOk, RandomOk, NewOk, TriedOk, CountsOk;
      if t' != SetInfo(t, n, info) {
        PlacedTimes(SetInfo(t, n, info), n, b, nNow, t');
      }
    } else {
      var aged := addr.(nTime := AfterPenalty(addr.nTime, nTimePenalty));
      CreatedRandom(keying, t, aged, source);
      hide BucketsOk, IdsOk, RandomOk, NewOk, TriedOk, CountsOk;
      PlacedTimes(Counted(Create(t, aged, source)), t.nIdCount, b, nNow, t');
    }
  }

  lemma EvictedTimes(keying: Keying, s: Tables, n: int, k: nat, pos: nat, origin: nat)
    requires n in s.mapInfo && k < |s.vvTried| && pos < |s.vvTried[k]| && s.vvTried[k][pos] in s.mapInfo
    requires |s.vvNew| == NEW_BUCKET_COUNT && origin < NEW_BUCKET_COUNT && s.vvTried[k][pos] != n
    ensures var m' := Evicted(keying, s, n, k, pos, origin).mapInfo;
            m'.Keys == s.mapInfo.Keys && TimesFrom(s.mapInfo, m', n) && m'[n].fInTried
  {
    hide GetNewBucket;
    assert Evicted(keying, s, n, k, pos, origin).mapInfo.Keys == s.mapInfo.Keys;
  }

  lemma MovedTimes(keying: Keying, t: Tables, n: int, origin: nat, t': Tables)
    requires n in t.mapInfo && |t.vvTried| == TRIED_BUCKET_COUNT && |t.vvNew| == NEW_BUCKET_COUNT
    requires Moved(keying, t, n, origin, t')
    requires TriedOk(keying, t.mapInfo, t.vvTried) && !t.mapInfo[n].fInTried
    ensures t'.mapInfo.Keys == t.mapInfo.Keys
    ensures TimesFrom(t.mapInfo, t'.mapInfo, n) && t'.mapInfo[n].fInTried
  {
    hide GetTriedBucket, GetNewBucket, TriedOk, Evicted, Without, Chosen, NoDuplicates;
    var s := TakeFromNew(t, n);
    var k := GetTriedBucket(keying, t.mapInfo[n].addr.service);
    if |s.vvTried[k]| < TRIED_BUCKET_SIZE {
      assert t' == PutInTried(s, n, k);
    } else {
      var vTried: seq<int>, pos: nat :|
        && Rearranged(s.vvTried[k], vTried)
        && pos < |vTried| && vTried[pos] in s.mapInfo && origin < NEW_BUCKET_COUNT
        && t' == Evicted(keying, s.(vvTried := s.vvTried[k := vTried]), n, k, pos, origin);
      assert vTried[pos] in vTried;
      var i :| 0 <= i < |t.vvTried[k]| && t.vvTried[k][i] == vTried[pos];
      InTriedBucket(keying, t.mapInfo, t.vvTried, k, i);
      EvictedTimes(keying, s.(vvTried := s.vvTried[k := vTried]), n, k, pos, origin);
    }
  }

  lemma {:induction false} GoodTimes(keying: Keying, t: Tables, service: Service, nTime: int, t': Tables)
    requires Consistent(keying, t) && Known(t, service) && MadeGood(keying, t, service, nTime, t') && TimesOk(t)
    ensures TimesOk(t') <==> 0 < nTime
  {
    hide GetTriedBucket, GetNewBucket, Moved;
    var n := t.mapAddr[service.ip];
    var s := SetInfo(t, n, Succeeded(t.mapInfo[n], nTime));
    if !t.mapInfo[n].fInTried {
      var origin: nat :| origin < |t.vvNew| && n in t.vvNew[origin] && Moved(keying, s, n, origin, t');
      SetInfoKeeps(keying, t, n, Succeeded(t.mapInfo[n], nTime), NoId, NoId);
      MovedTimes(keying, s, n, origin, t');
    }
    assert n in t'.mapInfo && t'.mapInfo[n].fInTried && t'.mapInfo[n].nLastSuccess == nTime;
  }

  /** The times stay in order exactly when the operation's own time fits. */
  lemma StepKeepsTimes(keying: Keying, op: Op, t: Tables, t': Tables)
    requires Consistent(keying, t) && Does(keying, op, t, t') && TimesOk(t)
    ensures TimesOk(t') <==> TimeFits(t, op)
  {
    hide GetTriedBucket, GetNewBucket, Moved, Added;
    match op
    case Add(addr, source, nTimePenalty, nNow, routable) =>
      if routable {
        AddedTimes(keying, t, addr, source, nTimePenalty, nNow, t');
      }
    case Good(service, nTime) =>
      if Known(t, service) {
        hide MadeGood;
        GoodTimes(keying, t, service, nTime, t');
      }
    case Attempt(service, nTime) =>
      if Known(t, service) {
        assert t'.mapInfo[t.mapAddr[service.ip]].nLastTry == nTime;
      }
    case Connected(service, nTime) =>
    case GetAddr => ReorderedTimes(t, t');
  }

  // ---------- Runs ----------

  /** Successive states of a manager, each reached from the one before by an operation. */
  ghost predicate IsRun(keying: Keying, states: seq<Tables>, ops: seq<Op>) {
    && |states| == |ops| + 1
    && Consistent(keying, states[0])
    && forall i | 0 <= i < |ops| ::
      Consistent(keying, states[i]) ==> Does(keying, ops[i], states[i], states[i + 1])
  }

  /** Every state of every run satisfies the invariant and the size bound; if every operation's time
      fits, the consistency check's conditions on times hold throughout as well. */
  lemma {:induction false} RunKeepsInv(keying: Keying, states: seq<Tables>, ops: seq<Op>, i: nat)
    requires IsRun(keying, states, ops) && i < |states|
    ensures Consistent(keying, states[i])
    ensures |states[i].vRandom| == states[i].nNew + states[i].nTried <= 256 * 64 + 64 * 64
    ensures TimesOk(states[0]) && (forall j | 0 <= j < i :: TimeFits(states[j], ops[j])) ==> TimesOk(states[i])
  {
    if i != 0 {
      RunKeepsInv(keying, states, ops, i - 1);
      hide Does, TimesOk, TimeFits, Inv;
      StepKeepsInv(keying, ops[i - 1], states[i - 1], states[i]);
      if TimesOk(states[i - 1]) {
        StepKeepsTimes(keying, ops[i - 1], states[i - 1], states[i]);
      }
    }
    SizeBound(keying, states[i]);
  }

  function EmptyTables(): Tables {
    Tables(0, map[], map[], [], 0, seq(TRIED_BUCKET_COUNT, _ => []), 0, seq(NEW_BUCKET_COUNT, _ => {}))
  }

  lemma EmptyConsistent(keying: Keying)
    ensures Consistent(keying, EmptyTables()) && TimesOk(EmptyTables())
  {
    var m: Infos := map[];
    assert NewIds(m, NoId) == {} && TriedIds(m) == {};
  }
}

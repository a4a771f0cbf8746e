/** What the operations on the address manager mean for the entries (src/addrman.cpp:36-387, 509-527): which
    entries may be thrown away and when, what hearing of an address again or connecting to it changes, and
    what adding one and marking one good move. */
module AddrLaws {
  import opened AddrTables
  import opened AddrOps
  import opened AddrRuns

  const MINUTE: nat := 60
  const HOUR: nat := 3600
  const DAY: nat := 86400

  // ---------- Few buckets for one group ----------

  /** The buckets below count that the second hash reaches with an index below n. */
  ghost function Reached(keying: Keying, group: nat, count: nat, n: nat): (s: set<nat>)
    requires 0 < count
    ensures |s| <= n && forall i: nat | i < n :: keying.hash64([keying.nKey, group, i]) % count in s
  {
    if n == 0 then {} else Reached(keying, group, count, n - 1) + {keying.hash64([keying.nKey, group, n - 1]) % count}
  }

  ghost predicate HoldsNews(keying: Keying, group: nat, buckets: set<nat>) {
    forall ip, source | keying.group(source) == group :: GetNewBucket(keying, ip, source) in buckets
  }

  ghost predicate HoldsTried(keying: Keying, group: nat, buckets: set<nat>) {
    forall service: Service | keying.group(service.ip) == group :: GetTriedBucket(keying, service) in buckets
  }

  /** Whatever one group of sources tells of goes to at most 32 new buckets. */
  lemma FewNewBuckets(keying: Keying, group: nat)
    ensures exists buckets: set<nat> :: |buckets| <= 32 && HoldsNews(keying, group, buckets)
  {
    var buckets := Reached(keying, group, 256, 32);
    hide Reached;
    assert HoldsNews(keying, group, buckets);
  }

  /** The addresses of one group go to at most 4 tried buckets. */
  lemma FewTriedBuckets(keying: Keying, group: nat)
    ensures exists buckets: set<nat> :: |buckets| <= 4 && HoldsTried(keying, group, buckets)
  {
    var buckets := Reached(keying, group, 64, 4);
    hide Reached;
    assert HoldsTried(keying, group, buckets);
  }

  /** Hash functions that spread one group as far as the bounds allow. */
  function Spread(): Keying {
    Keying(0, (s: seq<nat>) => if |s| == 3 then s[1] + s[2] else 0, (ip: nat) => ip)
  }

  /** No smaller bounds hold: under those hash functions one group reaches 32 new and 4 tried buckets. */
  lemma SpreadReachesAll()
    ensures forall ip: nat | ip < 32 :: GetNewBucket(Spread(), ip, 0) == ip
    ensures forall port: nat | port < 4 :: GetTriedBucket(Spread(), Service(0, port)) == port
  {
  }

  /** A new bucket depends on the groups of the address and the source alone. */
  lemma NewBucketOfGroups(keying: Keying, ip: nat, source: nat, ip': nat, source': nat)
    requires keying.group(ip) == keying.group(ip') && keying.group(source) == keying.group(source')
    ensures GetNewBucket(keying, ip, source) == GetNewBucket(keying, ip', source')
  {
  }

  // ---------- What an added address becomes ----------

  lemma DroppedOther(s: Tables, b: nat, e: int, n: int)
    requires RandomOk(s.mapInfo, s.vRandom) && e in s.mapInfo && b < |s.vvNew| && n in s.mapInfo && n != e
    requires s.mapInfo[e].Ip() != s.mapInfo[n].Ip()
    ensures var s' := DropRef(s, b, e);
            && n in s'.mapInfo && s'.mapInfo[n] == s.mapInfo[n].(nRandomPos := s'.mapInfo[n].nRandomPos)
            && (var ip := s.mapInfo[n].Ip(); ip in s.mapAddr ==> ip in s'.mapAddr && s'.mapAddr[ip] == s.mapAddr[ip])
  {
    assert Unref(s, b, e).mapInfo[n] == s.mapInfo[n];
  }

  lemma DroppedBuckets(s: Tables, b: nat, e: int)
    requires RandomOk(s.mapInfo, s.vRandom) && e in s.mapInfo && b < |s.vvNew|
    ensures DropRef(s, b, e).vvNew == s.vvNew[b := s.vvNew[b] - {e}]
  {
  }

  /** The id put in the place of another keeps its fields but its count and its place in vRandom. */
  lemma SwappedEntry(s: Tables, n: int, b: nat, e: int)
    requires RandomOk(s.mapInfo, s.vRandom) && n in s.mapInfo && b < |s.vvNew| && e in s.mapInfo && n != e
    requires s.mapInfo[e].Ip() != s.mapInfo[n].Ip()
    requires s.mapInfo[n].Ip() in s.mapAddr && s.mapAddr[s.mapInfo[n].Ip()] == n
    ensures var t', info := Swapped(s, n, b, e), s.mapInfo[n];
            && n in t'.mapInfo && info.Ip() in t'.mapAddr && t'.mapAddr[info.Ip()] == n
            && t'.mapInfo[n] == info.(nRandomPos := t'.mapInfo[n].nRandomPos, nRefCount := info.nRefCount + 1)
            && b < |t'.vvNew| && n in t'.vvNew[b]
  {
    hide DropRef, RandomOk;
    PendRandom(s, n);
    DroppedOther(Pend(s, n), b, e, n);
  }

  /** An entry put in a bucket keeps all its fields but its count and its place in vRandom. */
  lemma PlacedEntry(keying: Keying, s: Tables, n: int, b: nat, nNow: int, t': Tables)
    requires RandomOk(s.mapInfo, s.vRandom) && AddrOk(s.mapInfo, s.mapAddr) && n in s.mapInfo && b < |s.vvNew|
    requires forall m | m in s.vvNew[b] :: m in s.mapInfo
    requires Placed(s, n, b, nNow, t')
    ensures n in t'.mapInfo && Known(t', s.mapInfo[n].addr.service) && t'.mapAddr[s.mapInfo[n].Ip()] == n
    ensures var info := s.mapInfo[n];
            t'.mapInfo[n] == info.(nRandomPos := t'.mapInfo[n].nRandomPos,
                                   nRefCount := info.nRefCount + if n in s.vvNew[b] then 0 else 1)
    ensures b < |t'.vvNew| && n in t'.vvNew[b]
  {
    hide DropRef, IsTerrible, RandomOk;
    PendRandom(s, n);
    if n !in s.vvNew[b] && |s.vvNew[b]| == NEW_BUCKET_SIZE {
      var e :| MayLeave(s.mapInfo, s.vvNew[b], nNow, e) && t' == Swapped(s, n, b, e);
      hide Swapped;
      SwappedEntry(s, n, b, e);
    }
  }

  /** The tables when a known address has been refreshed. */
  lemma RefreshedStart(keying: Keying, t: Tables, addr: Address, nTimePenalty: int, nNow: int)
    requires Consistent(keying, t) && addr.service.ip in t.mapAddr
    ensures var n := t.mapAddr[addr.service.ip];
            && n in t.mapInfo && t.mapInfo[n].Ip() == addr.service.ip
            && (var info := Refreshed(t.mapInfo[n], addr, nTimePenalty, nNow);
                var s := SetInfo(t, n, info);
                && info.addr.service == t.mapInfo[n].addr.service && RandomOk(s.mapInfo, s.vRandom)
                && AddrOk(s.mapInfo, s.mapAddr)
                && forall b, m | 0 <= b < |t.vvNew| && m in t.vvNew[b] :: m in s.mapInfo)
  {
    var n := t.mapAddr[addr.service.ip];
    var info := Refreshed(t.mapInfo[n], addr, nTimePenalty, nNow);
    SetInfoRandom(keying, t, n, info);
    SetInfoKeeps(keying, t, n, info, NoId, NoId);
    hide RandomOk, NewOk, TriedOk, CountsOk, Refreshed;
  }

  /** The tables when a new address has been created. */
  lemma CreatedStart(keying: Keying, t: Tables, addr: Address, source: nat)
    requires Consistent(keying, t) && addr.service.ip !in t.mapAddr
    ensures t.nIdCount !in t.mapInfo
    ensures var s := Create(t, addr, source);
            && RandomOk(s.mapInfo, s.vRandom) && AddrOk(s.mapInfo, s.mapAddr)
            && forall b, m | 0 <= b < |t.vvNew| && m in t.vvNew[b] :: m in s.mapInfo && m != t.nIdCount
  {
    hide RandomOk, TriedOk, CountsOk, Refs;
    CreatedRandom(keying, t, addr, source);
    CreateAddr(t.mapInfo, t.mapAddr, t.nIdCount, NewEntry(addr, source, |t.vRandom|));
  }

  /** A service whose IP had no entry has one after it is added: never tried, with its time less the
      penalty, in the bucket it hashes to. */
  lemma AddedEntry(keying: Keying, t: Tables, addr: Address, source: nat, nTimePenalty: int, nNow: int, t': Tables)
    requires Consistent(keying, t) && Added(keying, t, addr, source, nTimePenalty, nNow, t')
    requires addr.service.ip !in t.mapAddr
    ensures Known(t', addr.service)
    ensures var n, nTime := t'.mapAddr[addr.service.ip], addr.nTime - nTimePenalty;
            && n !in t.mapInfo
            && t'.mapInfo[n] == AddrInfo(addr.(nTime := if 0 < nTime then nTime % 0x1_0000_0000 else 0), source,
                                         0, 0, 0, 1, false, t'.mapInfo[n].nRandomPos)
            && GetNewBucket(keying, addr.service.ip, source) < |t'.vvNew|
            && n in t'.vvNew[GetNewBucket(keying, addr.service.ip, source)]
  {
    hide GetNewBucket, BucketsOk, RandomOk, NewOk, TriedOk, CountsOk, DropRef, Placed;
    var aged := addr.(nTime := AfterPenalty(addr.nTime, nTimePenalty));
    var b, n := GetNewBucket(keying, addr.service.ip, source), t.nIdCount;
    var s := Counted(Create(t, aged, source));
    CreatedStart(keying, t, aged, source);
    PlacedEntry(keying, s, n, b, nNow, t');
  }

  // ---------- What may be thrown away ----------

  /** An entry that was just tried is not thrown away as useless within a minute; only a try at time 0, which
      means never, does not count. */
  lemma TriedIsSafe(keying: Keying, t: Tables, service: Service, nTime: int, t': Tables, bucket: set<int>, nNow: int)
    requires Consistent(keying, t) && Known(t, service) && Does(keying, Op.Attempt(service, nTime), t, t')
    requires nTime != 0 && nNow <= nTime + MINUTE
    ensures !Removes(t'.mapInfo, bucket, nNow, 0, t.mapAddr[service.ip])
  {
  }

  /** A run of attempts on one service, at those times. */
  ghost predicate Tries(keying: Keying, states: seq<Tables>, service: Service, times: seq<int>) {
    && |states| == |times| + 1
    && Consistent(keying, states[0])
    && forall i | 0 <= i < |times| ::
      Consistent(keying, states[i]) ==> Does(keying, Op.Attempt(service, times[i]), states[i], states[i + 1])
  }

  /** The time of the last of the attempts, or that before them. */
  function LastOf(first: int, times: seq<int>): int {
    if times == [] then first else times[|times| - 1]
  }

  lemma {:induction false} TriesCount(keying: Keying, states: seq<Tables>, service: Service, times: seq<int>)
    requires Tries(keying, states, service, times) && Known(states[0], service)
    ensures var t, t', n := states[0], states[|times|], states[0].mapAddr[service.ip];
            && Consistent(keying, t') && Known(t', service) && t'.mapAddr[service.ip] == n
            && t'.mapInfo[n] == t.mapInfo[n].(nLastTry := LastOf(t.mapInfo[n].nLastTry, times),
                                              nAttempts := t.mapInfo[n].nAttempts + |times|)
  {
    if times != [] {
      hide Consistent;
      var k := |times| - 1;
      TriesCount(keying, states[..k + 1], service, times[..k]);
      StepKeepsInv(keying, Op.Attempt(service, times[k]), states[k], states[k + 1]);
    }
  }

  lemma TriesFirst(keying: Keying, states: seq<Tables>, service: Service, times: seq<int>)
    requires Tries(keying, states, service, times)
    ensures |states| == |times| + 1 && Consistent(keying, states[0])
  {
    hide Consistent, Does;
  }

  lemma KnownId(t: Tables, service: Service)
    requires Known(t, service)
    ensures service.ip in t.mapAddr && t.mapAddr[service.ip] in t.mapInfo
  {
  }

  lemma Alone(m: Infos, n: int, nNow: int)
    requires n in m
    ensures Removes(m, {n}, nNow, 0, n) <==> IsTerrible(m[n], nNow)
  {
    hide IsTerrible;
  }

  lemma ToldIs(addr: Address, nTimePenalty: int)
    requires addr.nTime - nTimePenalty < 0x1_0000_0000
    ensures var nTime := addr.nTime - nTimePenalty;
            Told(addr, nTimePenalty) == if 0 < nTime then nTime % 0x1_0000_0000 else 0
  {
  }

  lemma UselessAfterThree(info: AddrInfo, nTime: int, times: seq<int>, nNow: int)
    requires info.addr.nTime == nTime && info.nLastSuccess == 0
    requires info.nLastTry == LastOf(0, times) && info.nAttempts == |times|
    requires LastOf(0, times) < nNow - MINUTE || times == []
    ensures IsTerrible(info, nNow) <==>
            nTime == 0 || nNow - nTime > 30 * DAY || nTime > nNow + 10 * MINUTE || |times| >= 3
  {
  }

  lemma UselessAfterTen(info: AddrInfo, nGood: int, times: seq<int>, nNow: int)
    requires info.addr.nTime == nGood && info.nLastSuccess == nGood && 0 < nGood
    requires info.nLastTry == LastOf(nGood, times) < nNow - MINUTE && info.nAttempts == |times|
    ensures IsTerrible(info, nNow) <==>
            nNow - nGood > 30 * DAY || nGood > nNow + 10 * MINUTE || (nNow - nGood > 7 * DAY && |times| >= 10)
  {
  }

  /** The time news of an address carries, less the penalty. */
  function Told(addr: Address, nTimePenalty: int): nat {
    if 0 < addr.nTime - nTimePenalty then addr.nTime - nTimePenalty else 0
  }

  /** An address that was never reached may be thrown away when the news of it carries no time, is over thirty
      days old or over ten minutes ahead, and in any case from the third try on. */
  lemma NeverReached(keying: Keying, t: Tables, addr: Address, source: nat, nTimePenalty: int, nAdded: int,
                     states: seq<Tables>, times: seq<int>, nNow: int)
    requires Consistent(keying, t) && addr.service.ip !in t.mapAddr
    requires Tries(keying, states, addr.service, times)
    requires Added(keying, t, addr, source, nTimePenalty, nAdded, states[0])
    requires addr.nTime - nTimePenalty < 0x1_0000_0000
    requires LastOf(0, times) < nNow - MINUTE || times == []
    ensures var t' := states[|times|];
            && addr.service.ip in t'.mapAddr
            && (var n, nTime := t'.mapAddr[addr.service.ip], Told(addr, nTimePenalty);
                Removes(t'.mapInfo, {n}, nNow, 0, n) <==>
                  nTime == 0 || nNow - nTime > 30 * DAY || nTime > nNow + 10 * MINUTE || |times| >= 3)
  {
    hide *;
    TriesFirst(keying, states, addr.service, times);
    AddedEntry(keying, t, addr, source, nTimePenalty, nAdded, states[0]);
    TriesCount(keying, states, addr.service, times);
    var t' := states[|times|];
    KnownId(t', addr.service);
    Alone(t'.mapInfo, t'.mapAddr[addr.service.ip], nNow);
    ToldIs(addr, nTimePenalty);
    UselessAfterThree(t'.mapInfo[t'.mapAddr[addr.service.ip]], Told(addr, nTimePenalty), times, nNow);
  }

  /** An address reached at time nGood and then tried in vain may be thrown away when that was over thirty days
      ago or is over ten minutes ahead, or was over a week ago and there have been ten tries. */
  lemma OnceReached(keying: Keying, t: Tables, service: Service, nGood: int, states: seq<Tables>, times: seq<int>,
                    nNow: int)
    requires Consistent(keying, t) && Known(t, service) && Tries(keying, states, service, times)
    requires Does(keying, Op.Good(service, nGood), t, states[0]) && 0 < nGood < 0x1_0000_0000
    requires LastOf(nGood, times) < nNow - MINUTE
    ensures var t' := states[|times|];
            && service.ip in t'.mapAddr
            && (var n := t'.mapAddr[service.ip];
                Removes(t'.mapInfo, {n}, nNow, 0, n) <==>
                  nNow - nGood > 30 * DAY || nGood > nNow + 10 * MINUTE || (nNow - nGood > 7 * DAY && |times| >= 10))
  {
    hide *;
    TriesFirst(keying, states, service, times);
    KnownId(t, service);
    GoodEntry(keying, t, service, nGood, states[0]);
    TriesCount(keying, states, service, times);
    var t' := states[|times|];
    KnownId(t', service);
    Alone(t'.mapInfo, t'.mapAddr[service.ip], nNow);
    UselessAfterTen(t'.mapInfo[t'.mapAddr[service.ip]], nGood, times, nNow);
  }

  /** What marking an address good makes of its entry. */
  lemma GoodEntry(keying: Keying, t: Tables, service: Service, nTime: int, t': Tables)
    requires Consistent(keying, t) && Known(t, service) && Does(keying, Op.Good(service, nTime), t, t')
    ensures var n := t.mapAddr[service.ip];
            && Known(t', service) && t'.mapAddr[service.ip] == n
            && t'.mapInfo[n] == t.mapInfo[n].(nLastSuccess := nTime, nLastTry := nTime, nAttempts := 0,
                                              addr := t.mapInfo[n].addr.(nTime := nTime % 0x1_0000_0000),
                                              fInTried := true, nRefCount := 0)
  {
    hide GetTriedBucket, GetNewBucket, Moved;
    var n := t.mapAddr[service.ip];
    var s := SetInfo(t, n, Succeeded(t.mapInfo[n], nTime));
    if !t.mapInfo[n].fInTried {
      var origin: nat :| origin < |t.vvNew| && n in t.vvNew[origin] && Moved(keying, s, n, origin, t');
      SetInfoKeeps(keying, t, n, Succeeded(t.mapInfo[n], nTime), NoId, NoId);
      MovedEntry(keying, s, n, origin, t');
    }
  }

  /** The entries are the same but for some. */
  predicate Untouched(m: Infos, m': Infos, some: set<int>) {
    m'.Keys == m.Keys && forall n | n in m && n !in some :: m'[n] == m[n]
  }

  lemma EvictedEntry(keying: Keying, s: Tables, n: int, k: nat, pos: nat, origin: nat)
    requires n in s.mapInfo && k < |s.vvTried| && pos < |s.vvTried[k]| && s.vvTried[k][pos] in s.mapInfo
    requires |s.vvNew| == NEW_BUCKET_COUNT && origin < NEW_BUCKET_COUNT && s.vvTried[k][pos] != n
    ensures var t := Evicted(keying, s, n, k, pos, origin);
            && t.mapAddr == s.mapAddr && n in t.mapInfo && t.mapInfo[n] == s.mapInfo[n].(fInTried := true)
            && Untouched(s.mapInfo, t.mapInfo, {n, s.vvTried[k][pos]})
  {
    hide GetNewBucket;
    assert Evicted(keying, s, n, k, pos, origin).mapInfo.Keys == s.mapInfo.Keys;
  }

  lemma MovedEntry(keying: Keying, s: Tables, n: int, origin: nat, t': Tables)
    requires n in s.mapInfo && |s.vvTried| == TRIED_BUCKET_COUNT && |s.vvNew| == NEW_BUCKET_COUNT
    requires Moved(keying, s, n, origin, t')
    requires TriedOk(keying, s.mapInfo, s.vvTried) && !s.mapInfo[n].fInTried
    ensures t'.mapAddr == s.mapAddr && n in t'.mapInfo
    ensures t'.mapInfo[n] == s.mapInfo[n].(fInTried := true, nRefCount := 0)
  {
    hide GetTriedBucket, GetNewBucket, TriedOk, Without, Chosen, NoDuplicates, Evicted;
    var u := TakeFromNew(s, n);
    var k := GetTriedBucket(keying, s.mapInfo[n].addr.service);
    if |u.vvTried[k]| >= TRIED_BUCKET_SIZE {
      var vTried: seq<int>, pos: nat :|
        && Rearranged(u.vvTried[k], vTried)
        && pos < |vTried| && vTried[pos] in u.mapInfo && origin < NEW_BUCKET_COUNT
        && t' == Evicted(keying, u.(vvTried := u.vvTried[k := vTried]), n, k, pos, origin);
      assert vTried[pos] in vTried;
      var i :| 0 <= i < |s.vvTried[k]| && s.vvTried[k][i] == vTried[pos];
      InTriedBucket(keying, s.mapInfo, s.vvTried, k, i);
      EvictedEntry(keying, u.(vvTried := u.vvTried[k := vTried]), n, k, pos, origin);
    }
  }

  /** Operations on a service that no entry has, another port of a known address among them, change nothing. */
  lemma UnknownChangesNothing(keying: Keying, t: Tables, op: Op, t': Tables)
    requires Consistent(keying, t) && Does(keying, op, t, t') && (op.Good? || op.Attempt? || op.Connected?)
    requires forall n | n in t.mapInfo :: t.mapInfo[n].addr.service != op.service
    ensures t' == t
  {
    UnknownIs(t, op.service);
    hide MadeGood, Consistent, Known;
    if op.Good? {
      UnknownNotGood(keying, t, op.service, op.nTime, t');
    }
  }

  lemma UnknownIs(t: Tables, service: Service)
    requires forall n | n in t.mapInfo :: t.mapInfo[n].addr.service != service
    ensures !Known(t, service)
  {
    var n := if service.ip in t.mapAddr then t.mapAddr[service.ip] else NoId;
    assert n in t.mapInfo ==> t.mapInfo[n].addr.service != service;
  }

  lemma UnknownNotGood(keying: Keying, t: Tables, service: Service, nTime: int, t': Tables)
    requires Consistent(keying, t) && MadeGood(keying, t, service, nTime, t') && !Known(t, service)
    ensures t' == t
  {
    hide Consistent, Moved;
  }

  /** An attempt is noted in the entry of its service and changes nothing else. */
  lemma AttemptIs(keying: Keying, t: Tables, service: Service, nTime: int, t': Tables)
    requires Consistent(keying, t) && Known(t, service) && Does(keying, Op.Attempt(service, nTime), t, t')
    ensures var n := t.mapAddr[service.ip];
            t' == t.(mapInfo := t.mapInfo[n := t.mapInfo[n].(nLastTry := nTime,
                                                              nAttempts := t.mapInfo[n].nAttempts + 1)])
  {
    hide Consistent;
  }

  // ---------- Hearing of an address again ----------

  /** Hearing again of an address adds its services. Its time moves only to the time told less the penalty, and
      only when it was unknown or that is later by more than an hour, or a day for an address not seen for a
      day; such news always moves it. The rest of the entry stays, but for one more reference at most. */
  lemma HeardAgain(keying: Keying, t: Tables, addr: Address, source: nat, nTimePenalty: nat, nNow: int, t': Tables)
    requires Consistent(keying, t) && Added(keying, t, addr, source, nTimePenalty, nNow, t')
    requires addr.service.ip in t.mapAddr && addr.nTime < 0x1_0000_0000
    ensures var n := t.mapAddr[addr.service.ip];
            && n in t.mapInfo && n in t'.mapInfo
            && (var info, info' := t.mapInfo[n], t'.mapInfo[n];
                var gap, nTime := if nNow - addr.nTime < DAY then HOUR else DAY, Told(addr, nTimePenalty);
                && info'.addr.service == info.addr.service
                && info'.addr.nServices == info.addr.nServices + addr.nServices
                && info'.addr.nTime == (if addr.nTime != 0 && (info.addr.nTime == 0
                                                               || addr.nTime - nTimePenalty > info.addr.nTime + gap)
                                        then nTime else info.addr.nTime)
                && info' == info.(addr := info'.addr, nRefCount := info'.nRefCount, nRandomPos := info'.nRandomPos)
                && info.nRefCount <= info'.nRefCount <= info.nRefCount + 1)
  {
    var ip := addr.service.ip;
    var n, b := t.mapAddr[ip], GetNewBucket(keying, ip, source);
    var info := Refreshed(t.mapInfo[n], addr, nTimePenalty, nNow);
    hide Consistent, GetNewBucket, Placed, Refreshed, RandomOk, AddrOk;
    RefreshedIs(t.mapInfo[n], addr, nTimePenalty, nNow);
    RefreshedStart(keying, t, addr, nTimePenalty, nNow);
    if t' != SetInfo(t, n, info) {
      PlacedEntry(keying, SetInfo(t, n, info), n, b, nNow, t');
    }
  }

  lemma RefreshedIs(info: AddrInfo, addr: Address, nTimePenalty: nat, nNow: int)
    requires addr.nTime < 0x1_0000_0000
    ensures var info' := Refreshed(info, addr, nTimePenalty, nNow);
            var gap := if nNow - addr.nTime < DAY then HOUR else DAY;
            && info'.addr.nServices == info.addr.nServices + addr.nServices
            && info'.addr.nTime == (if addr.nTime != 0
                                       && (info.addr.nTime == 0 || addr.nTime - nTimePenalty > info.addr.nTime + gap)
                                    then Told(addr, nTimePenalty) else info.addr.nTime)
            && info' == info.(addr := info.addr.(nTime := info'.addr.nTime, nServices := info'.addr.nServices))
  {
    ToldIs(addr, nTimePenalty);
  }

  /** No reference is gained from news without a time or no later than what is then known, nor by an address
      that is in the tried table or has four references; what is gained is in the bucket it hashes to. */
  lemma OldNewsAddsNothing(keying: Keying, t: Tables, addr: Address, source: nat, nTimePenalty: int, nNow: int,
                           t': Tables)
    requires Consistent(keying, t) && Added(keying, t, addr, source, nTimePenalty, nNow, t')
    requires addr.service.ip in t.mapAddr && t'.vvNew != t.vvNew
    ensures var n := t.mapAddr[addr.service.ip];
            && n in t.mapInfo && n in t'.mapInfo && !t.mapInfo[n].fInTried && t.mapInfo[n].nRefCount < 4
            && GetNewBucket(keying, addr.service.ip, source) < |t'.vvNew|
            && n in t'.vvNew[GetNewBucket(keying, addr.service.ip, source)]
            && addr.nTime != 0 && (t'.mapInfo[n].addr.nTime == 0 || addr.nTime > t'.mapInfo[n].addr.nTime)
  {
    var ip := addr.service.ip;
    var n, b := t.mapAddr[ip], GetNewBucket(keying, ip, source);
    var info := Refreshed(t.mapInfo[n], addr, nTimePenalty, nNow);
    hide GetNewBucket, Placed, BucketsOk, IdsOk, RandomOk, NewOk, TriedOk, CountsOk;
    RefreshedStart(keying, t, addr, nTimePenalty, nNow);
    NewCounts(keying, t, n);
    PlacedEntry(keying, SetInfo(t, n, info), n, b, nNow, t');
  }

  lemma NewCounts(keying: Keying, t: Tables, n: int)
    requires Consistent(keying, t) && n in t.mapInfo
    ensures t.mapInfo[n].nRefCount <= 4
  {
    hide Refs;
  }

  /** After a connection to it the time of an address is at most twenty minutes old; it never moves back, nothing
      else about the entry changes, and no other entry does. */
  lemma ConnectedIsRecent(keying: Keying, t: Tables, service: Service, nTime: int, t': Tables)
    requires Consistent(keying, t) && Known(t, service) && Does(keying, Op.Connected(service, nTime), t, t')
    requires 0 <= nTime < 0x1_0000_0000
    ensures var n := t.mapAddr[service.ip];
            && t' == t.(mapInfo := t'.mapInfo) && n in t'.mapInfo
            && t'.mapInfo == t.mapInfo[n := t.mapInfo[n].(
                 addr := t.mapInfo[n].addr.(nTime := t'.mapInfo[n].addr.nTime))]
            && (var time, time' := t.mapInfo[n].addr.nTime, t'.mapInfo[n].addr.nTime;
                time' == if nTime <= time + 20 * MINUTE then time else nTime)
  {
  }

  // ---------- What else an addition moves ----------

  lemma PlacedBuckets(s: Tables, n: int, b: nat, nNow: int, t': Tables, j: nat, m: int)
    requires RandomOk(s.mapInfo, s.vRandom) && n in s.mapInfo && b < |s.vvNew|
    requires forall m | m in s.vvNew[b] :: m in s.mapInfo
    requires Placed(s, n, b, nNow, t') && j < |s.vvNew| && m in s.vvNew[j]
    ensures |t'.vvNew| == |s.vvNew|
    ensures m !in t'.vvNew[j] ==>
              j == b && Gives(s.vvNew, b, m, n, t'.vvNew) && MayLeave(s.mapInfo, s.vvNew[b], nNow, m)
  {
    hide DropRef, IsTerrible, RandomOk;
    PendRandom(s, n);
    if n !in s.vvNew[b] && |s.vvNew[b]| == NEW_BUCKET_SIZE {
      var e :| MayLeave(s.mapInfo, s.vvNew[b], nNow, e) && t' == Swapped(s, n, b, e);
      DroppedBuckets(Pend(s, n), b, e);
    }
  }

  /** Bucket b, full, gives up m for n, and the other buckets stay. */
  predicate Gives(vvNew: seq<set<int>>, b: nat, m: int, n: int, vvNew': seq<set<int>>) {
    && b < |vvNew| && m in vvNew[b] && |vvNew[b]| == 64 && n !in vvNew[b]
    && vvNew' == vvNew[b := vvNew[b] - {m} + {n}]
  }

  lemma SameLeave(m: Infos, m': Infos, bucket: set<int>, nNow: int, e: int)
    requires MayLeave(m, bucket, nNow, e) && forall k | k in bucket :: k in m && k in m' && m'[k] == m[k]
    ensures MayLeave(m', bucket, nNow, e)
  {
    hide IsTerrible;
  }

  /** An addition costs at most one other reference, and only in the bucket the address goes to, when that is
      full: that of a terrible entry if any is there. */
  lemma AddedDropsOne(keying: Keying, t: Tables, addr: Address, source: nat, nTimePenalty: int, nNow: int,
                      t': Tables, b: nat, m: int)
    requires Consistent(keying, t) && Added(keying, t, addr, source, nTimePenalty, nNow, t')
    requires b < |t.vvNew| && m in t.vvNew[b]
    ensures |t'.vvNew| == |t.vvNew|
    ensures m !in t'.vvNew[b] ==>
            && b == GetNewBucket(keying, addr.service.ip, source) && MayLeave(t.mapInfo, t.vvNew[b], nNow, m)
            && addr.service.ip in t'.mapAddr && Gives(t.vvNew, b, m, t'.mapAddr[addr.service.ip], t'.vvNew)
  {
    hide GetNewBucket, Placed, MayLeave, Gives, Refreshed, BucketsOk, IdsOk, RandomOk, NewOk, TriedOk, CountsOk;
    var ip := addr.service.ip;
    var own := GetNewBucket(keying, ip, source);
    Members(keying, t, own);
    if ip in t.mapAddr {
      var n := t.mapAddr[ip];
      var info := Refreshed(t.mapInfo[n], addr, nTimePenalty, nNow);
      RefreshedStart(keying, t, addr, nTimePenalty, nNow);
      if t' != SetInfo(t, n, info) {
        PlacedFrom(SetInfo(t, n, info), t, n, own, nNow, t', b, m);
        PlacedEntry(keying, SetInfo(t, n, info), n, own, nNow, t');
      }
    } else {
      var aged := addr.(nTime := AfterPenalty(addr.nTime, nTimePenalty));
      var s := Counted(Create(t, aged, source));
      CreatedStart(keying, t, aged, source);
      PlacedFrom(s, t, t.nIdCount, own, nNow, t', b, m);
      PlacedEntry(keying, s, t.nIdCount, own, nNow, t');
    }
  }

  lemma Members(keying: Keying, t: Tables, b: nat)
    requires Consistent(keying, t) && b < |t.vvNew|
    ensures forall m | m in t.vvNew[b] :: m in t.mapInfo
  {
  }

  lemma PlacedFrom(s: Tables, t: Tables, n: int, own: nat, nNow: int, t': Tables, b: nat, m: int)
    requires RandomOk(s.mapInfo, s.vRandom) && n in s.mapInfo && own < |s.vvNew| && s.vvNew == t.vvNew
    requires forall k | k in s.vvNew[own] ::
               k in s.mapInfo && k in t.mapInfo && (k != n ==> s.mapInfo[k] == t.mapInfo[k])
    requires Placed(s, n, own, nNow, t') && b < |t.vvNew| && m in t.vvNew[b]
    ensures |t'.vvNew| == |t.vvNew|
    ensures m !in t'.vvNew[b] ==>
              b == own && Gives(t.vvNew, b, m, n, t'.vvNew) && MayLeave(t.mapInfo, t.vvNew[b], nNow, m)
  {
    hide Placed, MayLeave, RandomOk;
    PlacedBuckets(s, n, own, nNow, t', b, m);
    if m !in t'.vvNew[b] {
      SameLeave(s.mapInfo, t.mapInfo, t.vvNew[b], nNow, m);
    }
  }

  // ---------- What else marking an address good moves ----------

  /** An address marked good leaves the new buckets for the tried bucket it hashes to. While that has fewer than
      64 entries no other entry is moved; otherwise one of them goes back to a new bucket, its own if there is
      room and else one the address was in. */
  lemma GoodMoves(keying: Keying, t: Tables, service: Service, nTime: int, t': Tables)
    requires Consistent(keying, t) && Known(t, service) && Does(keying, Op.Good(service, nTime), t, t')
    requires !t.mapInfo[t.mapAddr[service.ip]].fInTried
    ensures var n, k := t.mapAddr[service.ip], GetTriedBucket(keying, service);
            if |t.vvTried[k]| < 64 then
              && t'.vvTried == t.vvTried[k := t.vvTried[k] + [n]]
              && |t'.vvNew| == |t.vvNew| && (forall b | 0 <= b < |t.vvNew| :: t'.vvNew[b] == t.vvNew[b] - {n})
              && Untouched(t.mapInfo, t'.mapInfo, {n})
            else
              exists victim, b :: Displaced(keying, t, n, k, victim, b, t')
  {
    hide GetTriedBucket, GetNewBucket, Chosen, NoDuplicates;
    hide BucketsOk, IdsOk, RandomOk, AddrOk, NewOk, TriedOk, CountsOk;
    var n, k := t.mapAddr[service.ip], GetTriedBucket(keying, service);
    var s := SetInfo(t, n, Succeeded(t.mapInfo[n], nTime));
    var origin: nat :| origin < |t.vvNew| && n in t.vvNew[origin] && Moved(keying, s, n, origin, t');
    hide Displaced;
    assert |t.vvTried[k]| < 64 ==> t'.mapInfo.Keys == t.mapInfo.Keys;
    if |t.vvTried[k]| >= 64 {
      var u := TakeFromNew(s, n);
      var vTried: seq<int>, pos: nat :|
        && Rearranged(u.vvTried[k], vTried)
        && pos < |vTried| && vTried[pos] in u.mapInfo && origin < NEW_BUCKET_COUNT
        && t' == Evicted(keying, u.(vvTried := u.vvTried[k := vTried]), n, k, pos, origin);
      hide Moved, Evicted, TakeFromNew;
      VictimInfo(keying, t, k, vTried, pos, n);
      var _ := EvictedMoves(keying, t, n, nTime, k, vTried, pos, origin);
    }
  }

  /** The entry victim of the full tried bucket k gives way to n and goes to the new bucket b. */
  ghost predicate Displaced(keying: Keying, t: Tables, n: int, k: nat, victim: int, b: nat, t': Tables)
    requires k < |t.vvTried|
  {
    && Untouched(t.mapInfo, t'.mapInfo, {n, victim})
    && victim in t.vvTried[k] && victim in t.mapInfo && b < |t.vvNew| == |t'.vvNew| && |t'.vvTried| == |t.vvTried|
    && (forall j | 0 <= j < |t.vvTried| && j != k :: t'.vvTried[j] == t.vvTried[j])
    && (forall m :: m in t'.vvTried[k] <==> m == n || (m in t.vvTried[k] && m != victim))
    && (forall j | 0 <= j < |t.vvNew| :: t'.vvNew[j] == t.vvNew[j] - {n} + if j == b then {victim} else {})
    && (var own := GetNewBucket(keying, t.mapInfo[victim].Ip(), t.mapInfo[victim].source);
        own < |t.vvNew| && if |t.vvNew[own] - {n}| < 64 then b == own else n in t.vvNew[b])
  }

  lemma EvictedMoves(keying: Keying, t: Tables, n: int, nTime: int, k: nat, vTried: seq<int>, pos: nat, origin: nat)
    returns (b: nat)
    requires n in t.mapInfo && k < |t.vvTried| && Rearranged(t.vvTried[k], vTried) && pos < |vTried|
    requires vTried[pos] in t.mapInfo && vTried[pos] != n
    requires |t.vvNew| == NEW_BUCKET_COUNT && origin < NEW_BUCKET_COUNT && n in t.vvNew[origin]
    ensures var u := TakeFromNew(SetInfo(t, n, Succeeded(t.mapInfo[n], nTime)), n);
            Displaced(keying, t, n, k, vTried[pos], b,
                      Evicted(keying, u.(vvTried := u.vvTried[k := vTried]), n, k, pos, origin))
  {
    hide GetNewBucket, Rearranged, Evicted;
    var u := TakeFromNew(SetInfo(t, n, Succeeded(t.mapInfo[n], nTime)), n);
    var v := u.(vvTried := u.vvTried[k := vTried]);
    var victim := vTried[pos];
    MembersSwapped(t.vvTried[k], vTried, pos, n);
    EvictedEntry(keying, v, n, k, pos, origin);
    EvictedTables(keying, v, n, k, pos, origin);
    var own := GetNewBucket(keying, t.mapInfo[victim].Ip(), t.mapInfo[victim].source);
    b := if |t.vvNew[own] - {n}| < 64 then own else origin;
    assert v.vvNew == Without(t.vvNew, n) && v.mapInfo[victim] == t.mapInfo[victim];
    assert v.mapInfo.Keys == t.mapInfo.Keys;
  }

  lemma EvictedTables(keying: Keying, s: Tables, n: int, k: nat, pos: nat, origin: nat)
    requires n in s.mapInfo && k < |s.vvTried| && pos < |s.vvTried[k]| && s.vvTried[k][pos] in s.mapInfo
    requires |s.vvNew| == NEW_BUCKET_COUNT && origin < NEW_BUCKET_COUNT && s.vvTried[k][pos] != n
    ensures var t, victim := Evicted(keying, s, n, k, pos, origin), s.vvTried[k][pos];
            var own := GetNewBucket(keying, s.mapInfo[victim].Ip(), s.mapInfo[victim].source);
            var b := if |s.vvNew[own]| < 64 then own else origin;
            && t.vvTried == s.vvTried[k := s.vvTried[k][pos := n]]
            && t.vvNew == s.vvNew[b := s.vvNew[b] + {victim}]
  {
    hide GetNewBucket;
  }

  lemma MembersSwapped(s: seq<int>, s': seq<int>, pos: nat, n: int)
    requires Rearranged(s, s') && pos < |s'|
    ensures forall m :: m in s'[pos := n] <==> m == n || (m in s && m != s'[pos])
    ensures s'[pos] in s
  {
    var r := s'[pos := n];
    assert r[pos] == n;
    forall m | m in s'
      ensures m in r || m == s'[pos]
    {
      var i :| 0 <= i < |s'| && s'[i] == m;
      assert i != pos ==> r[i] == m;
    }
    forall i | 0 <= i < |r| && i != pos
      ensures r[i] in s && r[i] != s'[pos]
    {
      assert r[i] == s'[i] && s'[i] in s';
    }
  }

  lemma VictimInfo(keying: Keying, t: Tables, k: nat, vTried: seq<int>, pos: nat, n: int)
    requires Consistent(keying, t) && k < |t.vvTried| && Rearranged(t.vvTried[k], vTried) && pos < |vTried|
    requires n in t.mapInfo && !t.mapInfo[n].fInTried
    ensures vTried[pos] in t.mapInfo && vTried[pos] != n
  {
    assert vTried[pos] in vTried;
    var i :| 0 <= i < |t.vvTried[k]| && t.vvTried[k][i] == vTried[pos];
    InTriedBucket(keying, t.mapInfo, t.vvTried, k, i);
  }

  // ---------- Which entry gives way ----------

  /** The first places end up holding the candidates, the least recently reached at place i, which was drawn from
      the position told. */
  ghost predicate OldestAt(m: Infos, c: Choice, draws: seq<nat>, i: nat) {
    && i < |draws| <= |c.vTried| && c.vTried[i] == c.nOldest && draws[i] == c.nOldestPos
    && (forall j | 0 <= j < |draws| :: c.vTried[j] in m) && c.vTried[i] in m
    && forall j | 0 <= j < |draws| :: m[c.vTried[i]].nLastSuccess <= m[c.vTried[j]].nLastSuccess
  }

  lemma {:induction false} OldestPlace(m: Infos, s: seq<int>, draws: seq<nat>) returns (i: nat)
    requires NoDuplicates(s) && (forall n | n in s :: n in m) && Draws(|s|, draws) && draws != []
    ensures OldestAt(m, Chooses(m, s, draws), draws, i)
  {
    var k := |draws| - 1;
    hide Chooses, OldestAt, NoDuplicates;
    ChoosesLast(m, s, draws);
    if k == 0 {
      i := 0;
      OldestFirst(m, Chooses(m, s, draws), draws);
    } else {
      i := OldestPlace(m, s, draws[..k]);
      i := OldestNext(m, Chooses(m, s, draws[..k]), Chooses(m, s, draws), draws, i);
    }
  }

  /** What the last draw changes. */
  ghost predicate LastDraw(m: Infos, c: Choice, c': Choice, draws: seq<nat>) {
    && draws != [] && |draws| <= |c.vTried| && draws[|draws| - 1] < |c.vTried|
    && var k, pos := |draws| - 1, draws[|draws| - 1];
    && k <= pos && c.vTried[pos] in m
    && c'.vTried == c.vTried[pos := c.vTried[k]][k := c.vTried[pos]]
    && (k > 0 ==> c.nOldest in m)
    && if k == 0 || m[c.vTried[pos]].nLastSuccess < m[c.nOldest].nLastSuccess
       then c'.nOldest == c.vTried[pos] && c'.nOldestPos == pos
       else c'.nOldest == c.nOldest && c'.nOldestPos == c.nOldestPos
  }

  lemma ChoosesLast(m: Infos, s: seq<int>, draws: seq<nat>)
    requires NoDuplicates(s) && (forall n | n in s :: n in m) && Draws(|s|, draws) && draws != []
    ensures LastDraw(m, Chooses(m, s, draws[..|draws| - 1]), Chooses(m, s, draws), draws)
  {
    var k := |draws| - 1;
    var c := Chooses(m, s, draws[..k]);
    assert c.vTried[draws[k]] in c.vTried;
    hide NoDuplicates;
  }

  lemma OldestFirst(m: Infos, c': Choice, draws: seq<nat>)
    requires |draws| == 1 && exists c :: LastDraw(m, c, c', draws)
    ensures OldestAt(m, c', draws, 0)
  {
  }

  lemma OldestNext(m: Infos, c: Choice, c': Choice, draws: seq<nat>, i: nat) returns (i': nat)
    requires |draws| > 1 && LastDraw(m, c, c', draws) && OldestAt(m, c, draws[..|draws| - 1], i)
    ensures OldestAt(m, c', draws, i')
  {
    var k := |draws| - 1;
    i' := if m[c.vTried[draws[k]]].nLastSuccess < m[c.nOldest].nLastSuccess then k else i;
    assert forall j | 0 <= j < k :: c'.vTried[j] == c.vTried[j];
    assert c'.vTried[k] == c.vTried[draws[k]];
  }

  /** The entry at the position told is the least recently reached candidate exactly when that was drawn from its
      own place; otherwise swapping it there has put another entry at the position. */
  lemma OldestGivesWayWhen(m: Infos, s: seq<int>, draws: seq<nat>)
    requires NoDuplicates(s) && (forall n | n in s :: n in m) && Draws(|s|, draws) && draws != []
    ensures var c := Chooses(m, s, draws);
            exists i: nat :: OldestAt(m, c, draws, i)
                        && (c.vTried[c.nOldestPos] == c.nOldest <==> draws[i] == i)
  {
    var i := OldestPlace(m, s, draws);
    var c := Chooses(m, s, draws);
    hide Chooses;
    assert c.vTried[c.nOldestPos] == c.vTried[i] <==> c.nOldestPos == i;
  }

  /** Of two entries the one reached last gives way when both draws are the second place. */
  lemma NewerGivesWay(older: AddrInfo, newer: AddrInfo)
    requires older.nLastSuccess < newer.nLastSuccess
    ensures var m: Infos := map[0 := newer, 1 := older];
            var c := Chooses(m, [0, 1], [1, 1]);
            Draws(2, [1, 1]) && c.nOldest == 1 && c.vTried[c.nOldestPos] == 0
  {
    var m: Infos := map[0 := newer, 1 := older];
    assert [1, 1][..1] == [1] && [1][..0] == [];
    assert Chooses(m, [0, 1], []) == Choice([0, 1], NoId, NoId);
    assert Chooses(m, [0, 1], [1]).vTried == [1, 0];
  }
}

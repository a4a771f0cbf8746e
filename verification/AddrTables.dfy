/** The tables of the address manager (src/addrman.h:164-196), the invariant that its own
    consistency check states, and the elementary changes every operation is made of. */
module AddrTables {

  const TRIED_BUCKET_COUNT: nat := 64
  const TRIED_BUCKET_SIZE: nat := 64
  const NEW_BUCKET_COUNT: nat := 256
  const NEW_BUCKET_SIZE: nat := 64
  const TRIED_BUCKETS_PER_GROUP: nat := 4
  const NEW_BUCKETS_PER_SOURCE_GROUP: nat := 32
  const NEW_BUCKETS_PER_ADDRESS: nat := 4

  /** A network address is the number its bytes spell. */
  datatype Service = Service(ip: nat, port: nat)

  /** nServices is the set of the flags that are on. */
  datatype Address = Address(service: Service, nServices: set<nat>, nTime: nat)

  datatype AddrInfo = AddrInfo(
    addr: Address, source: nat, nLastSuccess: int, nLastTry: int, nAttempts: int,
    nRefCount: int, fInTried: bool, nRandomPos: int)
  {
    function Ip(): nat {
      addr.service.ip
    }
  }

  /** The key and the hash functions bucket selection rests on: hash64 is the low word of the double
      hash of a serialized list of fields, group the network group of an address. */
  datatype Keying = Keying(nKey: nat, hash64: seq<nat> -> nat, group: nat -> nat)

  function GetTriedBucket(keying: Keying, service: Service): (bucket: nat)
    ensures bucket < TRIED_BUCKET_COUNT
  {
    var hash1 := keying.hash64([keying.nKey, service.ip, service.port]);
    keying.hash64([keying.nKey, keying.group(service.ip), hash1 % TRIED_BUCKETS_PER_GROUP]) % TRIED_BUCKET_COUNT
  }

  function GetNewBucket(keying: Keying, ip: nat, source: nat): (bucket: nat)
    ensures bucket < NEW_BUCKET_COUNT
  {
    var hash1 := keying.hash64([keying.nKey, keying.group(ip), keying.group(source)]);
    keying.hash64([keying.nKey, keying.group(source), hash1 % NEW_BUCKETS_PER_SOURCE_GROUP]) % NEW_BUCKET_COUNT
  }

  datatype Tables = Tables(
    nIdCount: int, mapInfo: map<int, AddrInfo>, mapAddr: map<nat, int>, vRandom: seq<int>,
    nTried: int, vvTried: seq<seq<int>>, nNew: int, vvNew: seq<set<int>>)

  const NoId: int := -1

  // ---------- The invariant ----------

  /** In how many of the buckets an id is. */
  function Refs(vvNew: seq<set<int>>, n: int): nat {
    if vvNew == [] then 0
    else Refs(vvNew[..|vvNew| - 1], n) + if n in vvNew[|vvNew| - 1] then 1 else 0
  }

  function NewIds(mapInfo: map<int, AddrInfo>, limbo: int): set<int> {
    set n | n in mapInfo && !mapInfo[n].fInTried && n != limbo
  }

  function TriedIds(mapInfo: map<int, AddrInfo>): set<int> {
    set n | n in mapInfo && mapInfo[n].fInTried
  }

  predicate BucketsOk(vvNew: seq<set<int>>, vvTried: seq<seq<int>>) {
    && |vvNew| == NEW_BUCKET_COUNT
    && |vvTried| == TRIED_BUCKET_COUNT
    && (forall b | 0 <= b < |vvNew| :: |vvNew[b]| <= NEW_BUCKET_SIZE)
    && (forall k | 0 <= k < |vvTried| :: |vvTried[k]| <= TRIED_BUCKET_SIZE)
  }

  predicate IdsOk(mapInfo: map<int, AddrInfo>, nIdCount: int) {
    0 <= nIdCount && forall n | n in mapInfo :: 0 <= n < nIdCount
  }

  /** vRandom lists every id once, and each entry knows its position. */
  predicate RandomOk(mapInfo: map<int, AddrInfo>, vRandom: seq<int>) {
    && |vRandom| == |mapInfo|
    && (forall i | 0 <= i < |vRandom| :: vRandom[i] in mapInfo && mapInfo[vRandom[i]].nRandomPos == i)
    && (forall n | n in mapInfo :: 0 <= mapInfo[n].nRandomPos < |vRandom| && vRandom[mapInfo[n].nRandomPos] == n)
  }

  /** mapAddr is the inverse of the address of an entry. */
  predicate AddrOk(mapInfo: map<int, AddrInfo>, mapAddr: map<nat, int>) {
    && (forall n | n in mapInfo :: mapInfo[n].Ip() in mapAddr && mapAddr[mapInfo[n].Ip()] == n)
    && (forall a | a in mapAddr :: mapAddr[a] in mapInfo && mapInfo[mapAddr[a]].Ip() == a)
  }

  /** Every new entry is in as many buckets as its count says, one fewer for the pending id, which
      is about to be put in one; tried entries and the id in limbo are in none. */
  predicate NewOk(mapInfo: map<int, AddrInfo>, vvNew: seq<set<int>>, pending: int, limbo: int) {
    && (forall n | n in mapInfo ::
      mapInfo[n].nRefCount == Refs(vvNew, n) + if n == pending then 1 else 0)
    && (forall n | n in mapInfo ::
      if mapInfo[n].fInTried || n == limbo then mapInfo[n].nRefCount == 0
      else 1 <= mapInfo[n].nRefCount <= NEW_BUCKETS_PER_ADDRESS)
    && (forall b, n | 0 <= b < |vvNew| && n in vvNew[b] :: n in mapInfo)
    && (limbo in mapInfo ==> !mapInfo[limbo].fInTried)
  }

  /** The tried buckets hold the tried entries, each once, in the bucket its address hashes to. */
  predicate TriedOk(keying: Keying, mapInfo: map<int, AddrInfo>, vvTried: seq<seq<int>>)
    requires |vvTried| == TRIED_BUCKET_COUNT
  {
    && (forall k, i | 0 <= k < |vvTried| && 0 <= i < |vvTried[k]| ::
      && vvTried[k][i] in mapInfo
      && mapInfo[vvTried[k][i]].fInTried
      && GetTriedBucket(keying, mapInfo[vvTried[k][i]].addr.service) == k)
    && (forall k | 0 <= k < |vvTried| :: NoDuplicates(vvTried[k]))
    && (forall n | n in mapInfo && mapInfo[n].fInTried ::
      n in vvTried[GetTriedBucket(keying, mapInfo[n].addr.service)])
  }

  predicate NoDuplicates(s: seq<int>) {
    forall i, j | 0 <= i < j < |s| :: s[i] != s[j]
  }

  predicate CountsOk(mapInfo: map<int, AddrInfo>, nNew: int, nTried: int, limbo: int) {
    nNew == |NewIds(mapInfo, limbo)| && nTried == |TriedIds(mapInfo)|
  }

  /** The whole invariant, in the middle of an operation: pending is an id whose count is one ahead
      of its buckets, limbo an id that is in no table at the moment. */
  predicate Inv(keying: Keying, t: Tables, pending: int, limbo: int) {
    && |t.vvNew| == NEW_BUCKET_COUNT
    && |t.vvTried| == TRIED_BUCKET_COUNT
    && BucketsOk(t.vvNew, t.vvTried)
    && IdsOk(t.mapInfo, t.nIdCount)
    && RandomOk(t.mapInfo, t.vRandom)
    && AddrOk(t.mapInfo, t.mapAddr)
    && NewOk(t.mapInfo, t.vvNew, pending, limbo)
    && TriedOk(keying, t.mapInfo, t.vvTried)
    && CountsOk(t.mapInfo, t.nNew, t.nTried, limbo)
    && (pending != NoId ==> pending in t.mapInfo)
    && (limbo != NoId ==> limbo in t.mapInfo)
  }

  /** The invariant between operations. */
  predicate Consistent(keying: Keying, t: Tables) {
    Inv(keying, t, NoId, NoId)
  }

  /** What the consistency check says of the times. */
  predicate TimesOk(t: Tables) {
    forall n | n in t.mapInfo ::
      && 0 <= t.mapInfo[n].nLastTry
      && 0 <= t.mapInfo[n].nLastSuccess
      && (t.mapInfo[n].fInTried ==> t.mapInfo[n].nLastSuccess != 0)
  }

  // ---------- Counting ----------

  lemma {:induction false} RefsUpdate(vvNew: seq<set<int>>, b: nat, s: set<int>, n: int)
    requires b < |vvNew|
    ensures Refs(vvNew[b := s], n) + (if n in vvNew[b] then 1 else 0)
         == Refs(vvNew, n) + if n in s then 1 else 0
  {
    var k := |vvNew| - 1;
    if b == k {
      assert vvNew[b := s][..k] == vvNew[..k];
    } else {
      assert vvNew[b := s][..k] == vvNew[..k][b := s];
      RefsUpdate(vvNew[..k], b, s, n);
    }
  }

  lemma {:induction false} RefsZero(vvNew: seq<set<int>>, n: int)
    ensures Refs(vvNew, n) == 0 <==> forall b | 0 <= b < |vvNew| :: n !in vvNew[b]
  {
    if vvNew != [] {
      var k := |vvNew| - 1;
      RefsZero(vvNew[..k], n);
      if n !in vvNew[k] && Refs(vvNew[..k], n) == 0 {
        forall b | 0 <= b < |vvNew|
          ensures n !in vvNew[b]
        {
          assert b == k || vvNew[b] == vvNew[..k][b];
        }
      }
      if forall b | 0 <= b < |vvNew| :: n !in vvNew[b] {
        assert forall b | 0 <= b < k :: vvNew[..k][b] == vvNew[b];
      }
    }
  }
}

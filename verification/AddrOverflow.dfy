/** An input on which loading with another number of buckets breaks the consistency check
    (src/addrman.h:318-378). The hash functions send every new entry to the first bucket. There are 65 new
    entries, one more than a bucket holds: 64 of them are in the first bucket and the last is in the second,
    which the check accepts, as it does not ask whether an entry is in a bucket the hash allows. */
module AddrOverflow {
  import opened AddrTables
  import opened AddrOps
  import opened AddrDisk
  import opened AddrRoundTrip
  import opened AddrRebuild

  /** Hash functions that send everything to the first bucket. */
  function Constant(): Keying {
    Keying(0, (_: seq<nat>) => 0, (_: nat) => 0)
  }

  /** One entry more than a new bucket has room for. */
  function Crowd(): nat {
    65
  }

  function InfoOf(i: nat): AddrInfo {
    AddrInfo(Address(Service(i, 0), {}, 1), 0, 0, 0, 0, 1, false, i)
  }

  function Numbers(n: nat): (ids: seq<int>)
    ensures |ids| == n && forall i | 0 <= i < n :: ids[i] == i
  {
    seq(n, i => i)
  }

  ghost function BucketOf(b: int): set<int> {
    if b == 0 then Below(Crowd() - 1) else if b == 1 then {Crowd() - 1} else {}
  }

  /** The manager. */
  ghost function Crowded(): Tables {
    Tables(Crowd(), map i: int | 0 <= i < Crowd() :: InfoOf(i), map i: nat | i in Below(Crowd()) :: i,
           Numbers(Crowd()), 0, seq(TRIED_BUCKET_COUNT, _ => []), Crowd(), seq(NEW_BUCKET_COUNT, b => BucketOf(b)))
  }

  function StoredBucket(b: int): seq<int> {
    if b == 0 then Numbers(Crowd() - 1) else if b == 1 then [Crowd() - 1] else []
  }

  /** Its stored form. */
  function Form(): Disk {
    Disk(0, Crowd(), 0, seq(Crowd(), i requires 0 <= i < Crowd() => ToEntry(InfoOf(i))), [],
         seq(NEW_BUCKET_COUNT, b => StoredBucket(b)))
  }

  lemma CrowdedBuckets()
    ensures BucketsOk(Crowded().vvNew, Crowded().vvTried)
  {
    hide Below;
    forall b | 0 <= b < NEW_BUCKET_COUNT
      ensures |BucketOf(b)| <= NEW_BUCKET_SIZE
    {
    }
  }

  lemma CrowdedNew()
    ensures NewOk(Crowded().mapInfo, Crowded().vvNew, NoId, NoId)
  {
    hide Below;
    var t := Crowded();
    forall n | n in t.mapInfo
      ensures Refs(t.vvNew, n) == 1
    {
      RefsIfOne(t.vvNew, n, if n < Crowd() - 1 then 0 else 1);
    }
    hide Refs;
  }

  lemma CrowdedIds()
    ensures IdsOk(Crowded().mapInfo, Crowd()) && RandomOk(Crowded().mapInfo, Numbers(Crowd()))
    ensures AddrOk(Crowded().mapInfo, Crowded().mapAddr)
  {
    hide Below;
    RandomFromRange(Crowded().mapInfo, Numbers(Crowd()), Crowd());
  }

  lemma CrowdedCounts()
    ensures NewIds(Crowded().mapInfo, NoId) == Below(Crowd())
    ensures TriedIds(Crowded().mapInfo) == {}
    ensures CountsOk(Crowded().mapInfo, Crowd(), 0, NoId)
  {
    hide Below;
    assert NewIds(Crowded().mapInfo, NoId) == Below(Crowd());
    assert TriedIds(Crowded().mapInfo) == {};
  }

  lemma CrowdedConsistent()
    ensures Consistent(Constant(), Crowded())
  {
    hide Refs, BucketsOk, IdsOk, RandomOk, AddrOk, NewOk, CountsOk, BucketOf, Below;
    CrowdedBuckets();
    CrowdedNew();
    CrowdedIds();
    CrowdedCounts();
  }

  lemma FormIndexes(b: nat)
    requires b < NEW_BUCKET_COUNT
    ensures Indexes(StoredBucket(b), BucketOf(b), Numbers(Crowd()))
  {
    hide Below;
    forall n | n in BucketOf(b)
      ensures exists i :: 0 <= i < |StoredBucket(b)| && 0 <= StoredBucket(b)[i] < Crowd() && StoredBucket(b)[i] == n
    {
      assert StoredBucket(b)[if b == 0 then n else 0] == n;
    }
  }

  lemma FormLists()
    ensures Lists(Numbers(Crowd()), NewIds(Crowded().mapInfo, NoId)) && Lists([], TriedIds(Crowded().mapInfo))
  {
    hide Below, NewIds, TriedIds, CountsOk;
    CrowdedCounts();
    forall n | n in Below(Crowd())
      ensures n in Numbers(Crowd())
    {
      assert Numbers(Crowd())[n] == n;
    }
  }

  lemma FormEntries(i: nat)
    requires i < Crowd()
    ensures i in Crowded().mapInfo && Form().news[i] == ToEntry(Crowded().mapInfo[i])
  {
    hide Below;
  }

  lemma FormSaves()
    ensures Saves(Constant(), Crowded(), Form(), Numbers(Crowd()), [])
  {
    hide Below;
    var t, d := Crowded(), Form();
    forall b | 0 <= b < |t.vvNew|
      ensures Indexes(d.buckets[b], t.vvNew[b], Numbers(Crowd()))
    {
      FormIndexes(b);
    }
    forall i | 0 <= i < Crowd()
      ensures i in t.mapInfo && d.news[i] == ToEntry(t.mapInfo[i])
    {
      FormEntries(i);
    }
    FormLists();
    hide Indexes, Lists, BucketOf, StoredBucket, ToEntry, InfoOf;
  }

  lemma FirstBucketOverflows()
    ensures |Own(Constant(), Form(), 0)| == Crowd()
  {
    hide Below;
    assert Own(Constant(), Form(), 0) == Below(Crowd());
  }

  /** A consistent manager, saved, does not load as one with a form of any other number of buckets. */
  lemma RebuildOverflows()
    ensures Consistent(Constant(), Crowded()) && Saves(Constant(), Crowded(), Form(), Numbers(Crowd()), [])
    ensures var d := Form().(buckets := []);
            Complete(d) && Rebuilds(d) && !Consistent(Constant(), Loaded(Constant(), d))
  {
    hide Consistent, Saves, Own, Constant, Crowded, Loaded;
    CrowdedConsistent();
    FormSaves();
    FirstBucketOverflows();
    RebuildConsistentWhen(Constant(), Crowded(), Form(), Numbers(Crowd()), [], Form().(buckets := []));
  }
}

/** The Bloom filter (src/bloom.cpp:34-182; "Filter matching algorithm" of BIP 37): what has been put in
    is always found, in spite of the two flags that cut the work short. */
module Bloom {

  type Data = seq<nat>

  /** MurmurHash3 of a seed and the data. */
  type Murmur = (nat, Data) -> nat

  const BLOOM_UPDATE_ALL: nat := 1
  const BLOOM_UPDATE_P2PUBKEY_ONLY: nat := 2
  const BLOOM_UPDATE_MASK: nat := 3

  // ---------- Bits ----------

  /** bit_mask. */
  function Mask(j: nat): (m: bv8)
    requires j < 8
    ensures m == 1 << j
  {
    if j == 0 then 0x01 else if j == 1 then 0x02 else if j == 2 then 0x04 else if j == 3 then 0x08
    else if j == 4 then 0x10 else if j == 5 then 0x20 else if j == 6 then 0x40 else 0x80
  }

  predicate HasBit(b: bv8, j: nat)
    requires j < 8
  {
    b & Mask(j) != 0
  }

  lemma SetBit(b: bv8, j: nat, k: nat)
    requires j < 8 && k < 8
    ensures HasBit(b | Mask(k), j) <==> HasBit(b, j) || j == k
  {
  }

  lemma AllOrNothing(b: bv8)
    ensures b == 0xff <==> forall j | 0 <= j < 8 :: HasBit(b, j)
    ensures b == 0 <==> forall j | 0 <= j < 8 :: !HasBit(b, j)
  {
    assert HasBit(b, 0) == (b & 0x01 != 0) && HasBit(b, 1) == (b & 0x02 != 0) && HasBit(b, 2) == (b & 0x04 != 0);
    assert HasBit(b, 3) == (b & 0x08 != 0) && HasBit(b, 4) == (b & 0x10 != 0) && HasBit(b, 5) == (b & 0x20 != 0);
    assert HasBit(b, 6) == (b & 0x40 != 0) && HasBit(b, 7) == (b & 0x80 != 0);
  }

  // ---------- The filter as a value ----------

  datatype Filter = Filter(vData: seq<bv8>, isFull: bool, isEmpty: bool, nHashFuncs: nat, nTweak: nat, nFlags: nat)

  predicate BitAt(vData: seq<bv8>, nIndex: nat)
    requires nIndex < 8 * |vData|
  {
    HasBit(vData[nIndex / 8], nIndex % 8)
  }

  /** Bit n of a filter is in byte n / 8, where it is bit n % 8 from the least significant on. */
  lemma BitAtIs(vData: seq<bv8>, n: nat)
    requires n < 8 * |vData|
    ensures BitAt(vData, n) <==> (vData[n / 8] >> (n % 8)) & 1 == 1
  {
    ShiftedBit(vData[n / 8], n % 8);
  }

  lemma ShiftedBit(b: bv8, j: nat)
    requires j < 8
    ensures HasBit(b, j) <==> (b >> j) & 1 == 1
  {
    assert Mask(j) == 1 << j;
    hide Mask;
    if j == 0 {
    } else if j == 1 {
    } else if j == 2 {
    } else if j == 3 {
    } else if j == 4 {
    } else if j == 5 {
    } else if j == 6 {
    } else {
    }
  }

  /** The bit that hash function i gives a key. */
  function Hash(murmur: Murmur, f: Filter, i: nat, vKey: Data): (nIndex: nat)
    requires f.vData != []
    ensures nIndex < 8 * |f.vData|
  {
    murmur((i * 0xFBA4C795 + f.nTweak) % 0x1_0000_0000, vKey) % (8 * |f.vData|)
  }

  /** A set flag tells the truth, and a filter without bits counts as full. */
  ghost predicate FlagsTrue(f: Filter) {
    && (f.isFull ==> forall i | 0 <= i < |f.vData| :: f.vData[i] == 0xff)
    && (f.isEmpty ==> forall i | 0 <= i < |f.vData| :: f.vData[i] == 0)
    && (f.vData == [] ==> f.isFull)
  }

  /** All bits of a key are set. */
  ghost predicate Covers(murmur: Murmur, f: Filter, vKey: Data) {
    f.vData == [] || forall i | 0 <= i < f.nHashFuncs :: BitAt(f.vData, Hash(murmur, f, i, vKey))
  }

  /** What contains answers: the flags first. */
  predicate Contains(murmur: Murmur, f: Filter, vKey: Data)
    requires FlagsTrue(f)
  {
    f.isFull || (!f.isEmpty && forall i | 0 <= i < f.nHashFuncs :: BitAt(f.vData, Hash(murmur, f, i, vKey)))
  }

  lemma BitOfByte(vData: seq<bv8>, nIndex: nat)
    requires nIndex < 8 * |vData|
    ensures vData[nIndex / 8] == 0xff ==> BitAt(vData, nIndex)
    ensures vData[nIndex / 8] == 0 ==> !BitAt(vData, nIndex)
  {
    AllOrNothing(vData[nIndex / 8]);
  }

  /** With a hash function at all, a key is reported exactly when its bits are set. */
  lemma ContainsIsCovers(murmur: Murmur, f: Filter, vKey: Data)
    requires FlagsTrue(f) && f.nHashFuncs >= 1
    ensures Contains(murmur, f, vKey) <==> Covers(murmur, f, vKey)
  {
    hide BitAt, Hash;
    if f.vData != [] {
      forall i | 0 <= i < f.nHashFuncs
        ensures f.isFull ==> BitAt(f.vData, Hash(murmur, f, i, vKey))
        ensures f.isEmpty ==> !BitAt(f.vData, Hash(murmur, f, i, vKey))
      {
        BitOfByte(f.vData, Hash(murmur, f, i, vKey));
      }
      assert f.isEmpty ==> !BitAt(f.vData, Hash(murmur, f, 0, vKey));
    }
  }

  /** Nothing but more bits. */
  ghost predicate Grows(f: Filter, g: Filter) {
    && |g.vData| == |f.vData| && g.nHashFuncs == f.nHashFuncs && g.nTweak == f.nTweak && g.nFlags == f.nFlags
    && forall n | 0 <= n < 8 * |f.vData| :: BitAt(f.vData, n) ==> BitAt(g.vData, n)
  }

  lemma GrowsTransitive(f: Filter, g: Filter, h: Filter)
    requires Grows(f, g) && Grows(g, h)
    ensures Grows(f, h)
  {
    hide BitAt;
  }

  lemma CoversKept(murmur: Murmur, f: Filter, g: Filter, vKey: Data)
    requires Grows(f, g) && Covers(murmur, f, vKey)
    ensures Covers(murmur, g, vKey)
  {
    hide BitAt;
    if f.vData != [] {
      forall i | 0 <= i < g.nHashFuncs
        ensures BitAt(g.vData, Hash(murmur, g, i, vKey))
      {
        assert Hash(murmur, g, i, vKey) == Hash(murmur, f, i, vKey);
        assert BitAt(f.vData, Hash(murmur, f, i, vKey));
      }
    }
  }

  // ---------- Inserting ----------

  /** The bits that a key of a filter that is not full sets, one hash function after the other. */
  function WithBits(murmur: Murmur, f: Filter, vKey: Data, k: nat): (vData: seq<bv8>)
    requires f.vData != []
    ensures |vData| == |f.vData|
  {
    if k == 0 then f.vData
    else
      var v, n := WithBits(murmur, f, vKey, k - 1), Hash(murmur, f, k - 1, vKey);
      v[n / 8 := v[n / 8] | Mask(n % 8)]
  }

  function Insert(murmur: Murmur, f: Filter, vKey: Data): Filter
    requires FlagsTrue(f)
  {
    if f.isFull then f else f.(vData := WithBits(murmur, f, vKey, f.nHashFuncs), isEmpty := false)
  }

  lemma OneBit(vData: seq<bv8>, n: nat, m: nat)
    requires n < 8 * |vData| && m < 8 * |vData|
    ensures BitAt(vData[n / 8 := vData[n / 8] | Mask(n % 8)], m) <==> BitAt(vData, m) || m == n
  {
    if m / 8 == n / 8 {
      SetBit(vData[n / 8], m % 8, n % 8);
      assert m == n <==> m % 8 == n % 8;
    }
    hide HasBit, Mask;
  }

  /** The bits set are those that were set and those of the first k hash functions. */
  lemma {:induction false} BitsAfter(murmur: Murmur, f: Filter, vKey: Data, k: nat, m: nat)
    requires f.vData != [] && m < 8 * |f.vData|
    ensures BitAt(WithBits(murmur, f, vKey, k), m) <==>
            BitAt(f.vData, m) || exists i :: 0 <= i < k && Hash(murmur, f, i, vKey) == m
  {
    hide BitAt, Hash;
    if k != 0 {
      BitsAfter(murmur, f, vKey, k - 1, m);
      OneBit(WithBits(murmur, f, vKey, k - 1), Hash(murmur, f, k - 1, vKey), m);
    }
  }

  lemma InsertGrows(murmur: Murmur, f: Filter, vKey: Data)
    requires FlagsTrue(f)
    ensures FlagsTrue(Insert(murmur, f, vKey)) && Grows(f, Insert(murmur, f, vKey))
  {
    hide BitAt, Hash;
    if !f.isFull {
      forall m | 0 <= m < 8 * |f.vData|
        ensures BitAt(f.vData, m) ==> BitAt(Insert(murmur, f, vKey).vData, m)
      {
        BitsAfter(murmur, f, vKey, f.nHashFuncs, m);
      }
    }
  }

  lemma InsertCovers(murmur: Murmur, f: Filter, vKey: Data)
    requires FlagsTrue(f)
    ensures Covers(murmur, Insert(murmur, f, vKey), vKey)
  {
    hide BitAt;
    var g := Insert(murmur, f, vKey);
    if f.vData != [] {
      forall i | 0 <= i < f.nHashFuncs
        ensures BitAt(g.vData, Hash(murmur, g, i, vKey))
      {
        assert Hash(murmur, g, i, vKey) == Hash(murmur, f, i, vKey);
        if f.isFull {
          BitOfByte(f.vData, Hash(murmur, f, i, vKey));
        } else {
          BitsAfter(murmur, f, vKey, f.nHashFuncs, Hash(murmur, f, i, vKey));
        }
      }
    }
  }

  // ---------- The flags ----------

  predicate AllAre(vData: seq<bv8>, b: bv8) {
    forall i | 0 <= i < |vData| :: vData[i] == b
  }

  function UpdateEmptyFull(f: Filter): Filter {
    f.(isFull := AllAre(f.vData, 0xff), isEmpty := AllAre(f.vData, 0))
  }

  lemma UpdateGrows(f: Filter)
    ensures FlagsTrue(UpdateEmptyFull(f)) && Grows(f, UpdateEmptyFull(f))
  {
    hide BitAt;
  }

  // ---------- Transactions ----------

  /** The data of the operations of a script, up to where parsing stops. */
  type Script = seq<Data>

  /** fKeyOrMultisig: Solver recognizes the script as TX_PUBKEY or TX_MULTISIG. */
  datatype Out = Out(scriptPubKey: Script, fKeyOrMultisig: bool)

  datatype In = In(prevout: OutPoint, scriptSig: Script)

  datatype OutPoint = OutPoint(hash: Data, n: nat)

  datatype Transaction = Transaction(vin: seq<In>, vout: seq<Out>)

  /** Keys are byte strings: those of a hash and of an outpoint are what they serialize to. */
  type Serialize = OutPoint -> Data

  /** Some data element of a script is in the filter. */
  predicate ScriptMatches(murmur: Murmur, f: Filter, script: Script)
    requires FlagsTrue(f)
  {
    exists d :: 0 <= d < |script| && script[d] != [] && Contains(murmur, f, script[d])
  }

  predicate Follows(f: Filter, out: Out) {
    var mode := f.nFlags % (BLOOM_UPDATE_MASK + 1);
    mode == BLOOM_UPDATE_ALL || (mode == BLOOM_UPDATE_P2PUBKEY_ONLY && out.fKeyOrMultisig)
  }

  /** The filter before output i is looked at: the outpoints of earlier matched outputs are in it. */
  function BeforeOutput(murmur: Murmur, ser: Serialize, f: Filter, tx: Transaction, hash: Data, i: nat): (g: Filter)
    requires FlagsTrue(f) && i <= |tx.vout|
    ensures FlagsTrue(g)
  {
    if i == 0 then f
    else
      var g := BeforeOutput(murmur, ser, f, tx, hash, i - 1);
      InsertGrows(murmur, g, ser(OutPoint(hash, i - 1)));
      if ScriptMatches(murmur, g, tx.vout[i - 1].scriptPubKey) && Follows(g, tx.vout[i - 1])
      then Insert(murmur, g, ser(OutPoint(hash, i - 1))) else g
  }

  /** Output i is matched by a data element when its turn comes. */
  predicate OutputMatched(murmur: Murmur, ser: Serialize, f: Filter, tx: Transaction, hash: Data, i: nat)
    requires FlagsTrue(f) && i < |tx.vout|
  {
    ScriptMatches(murmur, BeforeOutput(murmur, ser, f, tx, hash, i), tx.vout[i].scriptPubKey)
  }

  function AfterOutputs(murmur: Murmur, ser: Serialize, f: Filter, tx: Transaction, hash: Data): (g: Filter)
    requires FlagsTrue(f)
    ensures FlagsTrue(g)
  {
    if f.isFull || f.isEmpty then f else BeforeOutput(murmur, ser, f, tx, hash, |tx.vout|)
  }

  predicate InputMatches(murmur: Murmur, ser: Serialize, f: Filter, input: In)
    requires FlagsTrue(f)
  {
    Contains(murmur, f, ser(input.prevout)) || ScriptMatches(murmur, f, input.scriptSig)
  }

  /** The transaction is relevant: its hash, a data element of an output, an outpoint it spends or a data
      element of an input is in the filter. */
  ghost predicate Relevant(murmur: Murmur, ser: Serialize, f: Filter, tx: Transaction, hash: Data)
    requires FlagsTrue(f)
  {
    var g := AfterOutputs(murmur, ser, f, tx, hash);
    f.isFull ||
    (!f.isEmpty &&
     (Contains(murmur, f, hash)
      || (exists i :: 0 <= i < |tx.vout| && OutputMatched(murmur, ser, f, tx, hash, i))
      || (exists j :: 0 <= j < |tx.vin| && InputMatches(murmur, ser, g, tx.vin[j]))))
  }

  lemma {:induction false} BeforeGrows(murmur: Murmur, ser: Serialize, f: Filter, tx: Transaction, hash: Data, i: nat,
                                       k: nat)
    requires FlagsTrue(f) && i <= k <= |tx.vout|
    ensures Grows(BeforeOutput(murmur, ser, f, tx, hash, i), BeforeOutput(murmur, ser, f, tx, hash, k))
  {
    hide FlagsTrue, Grows, Insert, Contains;
    if i == k {
      GrowsSelf(BeforeOutput(murmur, ser, f, tx, hash, i));
    } else {
      var g := BeforeOutput(murmur, ser, f, tx, hash, k - 1);
      BeforeGrows(murmur, ser, f, tx, hash, i, k - 1);
      InsertGrows(murmur, g, ser(OutPoint(hash, k - 1)));
      GrowsTransitive(BeforeOutput(murmur, ser, f, tx, hash, i), g, Insert(murmur, g, ser(OutPoint(hash, k - 1))));
    }
  }

  lemma GrowsSelf(f: Filter)
    ensures Grows(f, f)
  {
  }

  // ---------- Runs ----------

  datatype Op =
    | OnInsert(vKey: Data)
    | OnTransaction(tx: Transaction, hash: Data)
    | OnUpdateEmptyFull

  function Apply(murmur: Murmur, ser: Serialize, f: Filter, op: Op): (g: Filter)
    requires FlagsTrue(f)
    ensures FlagsTrue(g)
  {
    match op
    case OnInsert(vKey) =>
      InsertGrows(murmur, f, vKey);
      Insert(murmur, f, vKey)
    case OnTransaction(tx, hash) => AfterOutputs(murmur, ser, f, tx, hash)
    case OnUpdateEmptyFull =>
      UpdateGrows(f);
      UpdateEmptyFull(f)
  }

  function After(murmur: Murmur, ser: Serialize, f: Filter, ops: seq<Op>): (g: Filter)
    requires FlagsTrue(f)
    ensures FlagsTrue(g)
  {
    if ops == [] then f else Apply(murmur, ser, After(murmur, ser, f, ops[..|ops| - 1]), ops[|ops| - 1])
  }

  lemma ApplyGrows(murmur: Murmur, ser: Serialize, f: Filter, op: Op)
    requires FlagsTrue(f)
    ensures Grows(f, Apply(murmur, ser, f, op))
  {
    hide FlagsTrue, Grows, Insert, UpdateEmptyFull, BeforeOutput;
    match op
    case OnInsert(vKey) => InsertGrows(murmur, f, vKey);
    case OnTransaction(tx, hash) => OutputsGrow(murmur, ser, f, tx, hash);
    case OnUpdateEmptyFull => UpdateGrows(f);
  }

  lemma OutputsGrow(murmur: Murmur, ser: Serialize, f: Filter, tx: Transaction, hash: Data)
    requires FlagsTrue(f)
    ensures Grows(f, AfterOutputs(murmur, ser, f, tx, hash))
  {
    hide FlagsTrue, Grows;
    GrowsSelf(f);
    BeforeGrows(murmur, ser, f, tx, hash, 0, |tx.vout|);
  }

  lemma {:induction false} RunGrows(murmur: Murmur, ser: Serialize, f: Filter, ops: seq<Op>)
    requires FlagsTrue(f)
    ensures Grows(f, After(murmur, ser, f, ops))
  {
    hide FlagsTrue, Grows, Apply;
    if ops == [] {
      GrowsSelf(f);
    } else {
      var g := After(murmur, ser, f, ops[..|ops| - 1]);
      RunGrows(murmur, ser, f, ops[..|ops| - 1]);
      ApplyGrows(murmur, ser, g, ops[|ops| - 1]);
      GrowsTransitive(f, g, Apply(murmur, ser, g, ops[|ops| - 1]));
    }
  }

  /** Inserting leaves a trace: there is a hash function, or every key is reported anyway, either because
      there is no bit that could be missing or because some bit shows that the filter is in use. */
  predicate LeavesTrace(f: Filter) {
    f.nHashFuncs >= 1 || f.vData == [] || !AllAre(f.vData, 0)
  }

  /** A key once inserted is reported after anything that follows. */
  lemma NoFalseNegative(murmur: Murmur, ser: Serialize, f: Filter, vKey: Data, ops: seq<Op>)
    requires FlagsTrue(f) && LeavesTrace(f)
    ensures FlagsTrue(Insert(murmur, f, vKey))
    ensures Contains(murmur, After(murmur, ser, Insert(murmur, f, vKey), ops), vKey)
  {
    var g := Insert(murmur, f, vKey);
    InsertGrows(murmur, f, vKey);
    InsertCovers(murmur, f, vKey);
    RunGrows(murmur, ser, g, ops);
    if f.nHashFuncs >= 1 {
      StillContained(murmur, ser, g, ops, vKey);
    } else {
      GrowsTransitive(f, g, After(murmur, ser, g, ops));
      InUse(murmur, f, After(murmur, ser, g, ops), vKey);
    }
  }

  /** Without hash functions a filter without data, or with some bit set, reports every key. */
  lemma InUse(murmur: Murmur, f: Filter, g: Filter, vKey: Data)
    requires FlagsTrue(f) && FlagsTrue(g) && Grows(f, g) && f.nHashFuncs == 0
    requires f.vData == [] || !AllAre(f.vData, 0)
    ensures Contains(murmur, g, vKey)
  {
    if f.vData != [] {
      var i :| 0 <= i < |f.vData| && f.vData[i] != 0;
      AllOrNothing(f.vData[i]);
      var j :| 0 <= j < 8 && HasBit(f.vData[i], j);
      assert BitAt(f.vData, 8 * i + j);
      assert BitAt(g.vData, 8 * i + j);
      AllOrNothing(g.vData[i]);
    }
  }

  /** The exact condition: a key is reported after every run if and only if inserting it leaves a trace. */
  lemma RememberedExactly(murmur: Murmur, ser: Serialize, f: Filter, vKey: Data)
    requires FlagsTrue(f)
    ensures FlagsTrue(Insert(murmur, f, vKey))
    ensures LeavesTrace(f) <==>
            forall ops: seq<Op> :: Contains(murmur, After(murmur, ser, Insert(murmur, f, vKey), ops), vKey)
  {
    hide FlagsTrue, Contains, LeavesTrace;
    InsertGrows(murmur, f, vKey);
    var g := Insert(murmur, f, vKey);
    if LeavesTrace(f) {
      forall ops: seq<Op>
        ensures Contains(murmur, After(murmur, ser, g, ops), vKey)
      {
        NoFalseNegative(murmur, ser, f, vKey, ops);
      }
    } else {
      ForgottenWhen(murmur, f, vKey);
      OneUpdate(murmur, ser, g);
      assert !Contains(murmur, After(murmur, ser, g, [OnUpdateEmptyFull]), vKey);
    }
  }

  lemma OneUpdate(murmur: Murmur, ser: Serialize, g: Filter)
    requires FlagsTrue(g)
    ensures After(murmur, ser, g, [OnUpdateEmptyFull]) == UpdateEmptyFull(g)
  {
    hide FlagsTrue, UpdateEmptyFull;
    assert [OnUpdateEmptyFull][..0] == [];
    assert After(murmur, ser, g, []) == g;
  }

  lemma StillContained(murmur: Murmur, ser: Serialize, g: Filter, ops: seq<Op>, vKey: Data)
    requires FlagsTrue(g) && g.nHashFuncs >= 1 && Covers(murmur, g, vKey)
    ensures Contains(murmur, After(murmur, ser, g, ops), vKey)
  {
    hide FlagsTrue, Covers, Contains;
    RunGrows(murmur, ser, g, ops);
    CoversKept(murmur, g, After(murmur, ser, g, ops), vKey);
    ContainsIsCovers(murmur, After(murmur, ser, g, ops), vKey);
  }

  /** Without a trace it is forgotten as soon as the flags are updated. */
  lemma ForgottenWhen(murmur: Murmur, f: Filter, vKey: Data)
    requires FlagsTrue(f)
    ensures var g := UpdateEmptyFull(Insert(murmur, f, vKey));
            && FlagsTrue(g)
            && (Contains(murmur, g, vKey) <==> LeavesTrace(f))
  {
    var h := Insert(murmur, f, vKey);
    var g := UpdateEmptyFull(h);
    InsertGrows(murmur, f, vKey);
    UpdateGrows(h);
    if f.nHashFuncs >= 1 {
      InsertCovers(murmur, f, vKey);
      CoversKept(murmur, h, g, vKey);
      ContainsIsCovers(murmur, g, vKey);
    } else if f.vData != [] {
      assert h.vData == f.vData;
      var b := f.vData[0];
      assert AllAre(f.vData, 0) ==> b == 0;
      assert AllAre(f.vData, 0xff) ==> b == 0xff;
    }
  }

  // ---------- What makes a transaction relevant ----------

  lemma ContainsKept(murmur: Murmur, f: Filter, g: Filter, vKey: Data)
    requires FlagsTrue(f) && FlagsTrue(g) && Grows(f, g) && f.nHashFuncs >= 1 && Contains(murmur, f, vKey)
    ensures Contains(murmur, g, vKey)
  {
    hide FlagsTrue, Grows, Contains, Covers;
    ContainsIsCovers(murmur, f, vKey);
    CoversKept(murmur, f, g, vKey);
    SameFuncs(f, g);
    ContainsIsCovers(murmur, g, vKey);
  }

  lemma SameFuncs(f: Filter, g: Filter)
    requires Grows(f, g)
    ensures g.nHashFuncs == f.nHashFuncs && g.nFlags == f.nFlags && |g.vData| == |f.vData|
  {
    hide BitAt;
  }

  /** No output matched means that nothing was inserted. */
  lemma {:induction false} UnmatchedOutputs(murmur: Murmur, ser: Serialize, f: Filter, tx: Transaction, hash: Data,
                                            n: nat)
    requires FlagsTrue(f) && n <= |tx.vout|
    requires forall i | 0 <= i < n :: !OutputMatched(murmur, ser, f, tx, hash, i)
    ensures BeforeOutput(murmur, ser, f, tx, hash, n) == f
  {
    hide FlagsTrue, ScriptMatches;
    if n != 0 {
      UnmatchedOutputs(murmur, ser, f, tx, hash, n - 1);
      NextOutput(murmur, ser, f, tx, hash, n - 1);
    }
  }

  /** Some output is matched when its turn comes exactly when some output holds an element the filter reports to
      begin with. */
  lemma SomeOutputMatched(murmur: Murmur, ser: Serialize, f: Filter, tx: Transaction, hash: Data)
    requires FlagsTrue(f) && f.nHashFuncs >= 1
    ensures (exists i :: 0 <= i < |tx.vout| && OutputMatched(murmur, ser, f, tx, hash, i)) <==>
            exists i :: 0 <= i < |tx.vout| && ScriptMatches(murmur, f, tx.vout[i].scriptPubKey)
  {
    hide FlagsTrue, Contains, Grows;
    if i :| 0 <= i < |tx.vout| && ScriptMatches(murmur, f, tx.vout[i].scriptPubKey) {
      var d :| 0 <= d < |tx.vout[i].scriptPubKey| && tx.vout[i].scriptPubKey[d] != []
               && Contains(murmur, f, tx.vout[i].scriptPubKey[d]);
      var g := BeforeOutput(murmur, ser, f, tx, hash, i);
      BeforeGrows(murmur, ser, f, tx, hash, 0, i);
      NoOutput(murmur, ser, f, tx, hash);
      ContainsKept(murmur, f, g, tx.vout[i].scriptPubKey[d]);
      assert OutputMatched(murmur, ser, f, tx, hash, i);
    } else if exists i :: 0 <= i < |tx.vout| && OutputMatched(murmur, ser, f, tx, hash, i) {
      var i := FirstMatched(murmur, ser, f, tx, hash, |tx.vout|);
      UnmatchedOutputs(murmur, ser, f, tx, hash, i);
    }
  }

  lemma {:induction false} FirstMatched(murmur: Murmur, ser: Serialize, f: Filter, tx: Transaction, hash: Data, n: nat)
    returns (i: nat)
    requires FlagsTrue(f) && n <= |tx.vout|
    requires exists i :: 0 <= i < n && OutputMatched(murmur, ser, f, tx, hash, i)
    ensures i < n && OutputMatched(murmur, ser, f, tx, hash, i)
    ensures forall k | 0 <= k < i :: !OutputMatched(murmur, ser, f, tx, hash, k)
  {
    hide FlagsTrue, OutputMatched;
    if exists i :: 0 <= i < n - 1 && OutputMatched(murmur, ser, f, tx, hash, i) {
      i := FirstMatched(murmur, ser, f, tx, hash, n - 1);
    } else {
      i := n - 1;
    }
  }

  /** The filter reports the transaction's hash, a data element of an output or of an input, or an outpoint that
      it spends. */
  ghost predicate Mentions(murmur: Murmur, ser: Serialize, f: Filter, tx: Transaction, hash: Data)
    requires FlagsTrue(f)
  {
    || Contains(murmur, f, hash)
    || (exists i, d :: 0 <= i < |tx.vout| && 0 <= d < |tx.vout[i].scriptPubKey|
                       && tx.vout[i].scriptPubKey[d] != [] && Contains(murmur, f, tx.vout[i].scriptPubKey[d]))
    || (exists j :: 0 <= j < |tx.vin| && Contains(murmur, f, ser(tx.vin[j].prevout)))
    || (exists j, d :: 0 <= j < |tx.vin| && 0 <= d < |tx.vin[j].scriptSig|
                       && tx.vin[j].scriptSig[d] != [] && Contains(murmur, f, tx.vin[j].scriptSig[d]))
  }

  /** A transaction is relevant exactly when the filter, as it is on entry, reports something it mentions. */
  lemma RelevantExactly(murmur: Murmur, ser: Serialize, f: Filter, tx: Transaction, hash: Data)
    requires FlagsTrue(f)
    ensures Relevant(murmur, ser, f, tx, hash) <==> f.isFull || (!f.isEmpty && Mentions(murmur, ser, f, tx, hash))
  {
    hide FlagsTrue, OutputMatched, BeforeOutput;
    if f.nHashFuncs == 0 {
      assert f.isFull || f.isEmpty || Contains(murmur, f, hash);
    } else if !f.isFull && !f.isEmpty {
      hide Contains;
      SomeOutputMatched(murmur, ser, f, tx, hash);
      if !exists i :: 0 <= i < |tx.vout| && OutputMatched(murmur, ser, f, tx, hash, i) {
        UnmatchedOutputs(murmur, ser, f, tx, hash, |tx.vout|);
      }
      InputsMention(murmur, ser, f, tx);
      OutputsMention(murmur, ser, f, tx);
      hide ScriptMatches, InputMatches;
    }
  }

  lemma InputsMention(murmur: Murmur, ser: Serialize, f: Filter, tx: Transaction)
    requires FlagsTrue(f)
    ensures (exists j :: 0 <= j < |tx.vin| && InputMatches(murmur, ser, f, tx.vin[j])) <==>
            (exists j :: 0 <= j < |tx.vin| && Contains(murmur, f, ser(tx.vin[j].prevout)))
            || (exists j, d :: 0 <= j < |tx.vin| && 0 <= d < |tx.vin[j].scriptSig|
                               && tx.vin[j].scriptSig[d] != [] && Contains(murmur, f, tx.vin[j].scriptSig[d]))
  {
    hide FlagsTrue, Contains;
    if j :| 0 <= j < |tx.vin| && Contains(murmur, f, ser(tx.vin[j].prevout)) {
      assert InputMatches(murmur, ser, f, tx.vin[j]);
    } else if j, d :| 0 <= j < |tx.vin| && 0 <= d < |tx.vin[j].scriptSig|
                      && tx.vin[j].scriptSig[d] != [] && Contains(murmur, f, tx.vin[j].scriptSig[d]) {
      assert InputMatches(murmur, ser, f, tx.vin[j]);
    }
  }

  lemma OutputsMention(murmur: Murmur, ser: Serialize, f: Filter, tx: Transaction)
    requires FlagsTrue(f)
    ensures (exists i :: 0 <= i < |tx.vout| && ScriptMatches(murmur, f, tx.vout[i].scriptPubKey)) <==>
            exists i, d :: 0 <= i < |tx.vout| && 0 <= d < |tx.vout[i].scriptPubKey|
                           && tx.vout[i].scriptPubKey[d] != [] && Contains(murmur, f, tx.vout[i].scriptPubKey[d])
  {
    hide FlagsTrue, Contains;
    if i, d :| 0 <= i < |tx.vout| && 0 <= d < |tx.vout[i].scriptPubKey|
               && tx.vout[i].scriptPubKey[d] != [] && Contains(murmur, f, tx.vout[i].scriptPubKey[d]) {
      assert ScriptMatches(murmur, f, tx.vout[i].scriptPubKey);
    }
  }

  /** A key is the transaction's hash, an element of one of its outputs or inputs, or an outpoint it spends. */
  ghost predicate Holds(ser: Serialize, tx: Transaction, hash: Data, vKey: Data) {
    || vKey == hash
    || (vKey != [] && exists i :: 0 <= i < |tx.vout| && vKey in tx.vout[i].scriptPubKey)
    || (exists j :: 0 <= j < |tx.vin| && vKey == ser(tx.vin[j].prevout))
    || (vKey != [] && exists j :: 0 <= j < |tx.vin| && vKey in tx.vin[j].scriptSig)
  }

  lemma HeldIsMentioned(murmur: Murmur, ser: Serialize, f: Filter, tx: Transaction, hash: Data, vKey: Data)
    requires FlagsTrue(f) && Contains(murmur, f, vKey) && Holds(ser, tx, hash, vKey)
    ensures Mentions(murmur, ser, f, tx, hash)
  {
    hide FlagsTrue, Contains;
    if vKey != [] && exists i :: 0 <= i < |tx.vout| && vKey in tx.vout[i].scriptPubKey {
      var i :| 0 <= i < |tx.vout| && vKey in tx.vout[i].scriptPubKey;
      var d :| 0 <= d < |tx.vout[i].scriptPubKey| && tx.vout[i].scriptPubKey[d] == vKey;
      assert Contains(murmur, f, tx.vout[i].scriptPubKey[d]);
    } else if vKey != [] && exists j :: 0 <= j < |tx.vin| && vKey in tx.vin[j].scriptSig {
      var j :| 0 <= j < |tx.vin| && vKey in tx.vin[j].scriptSig;
      var d :| 0 <= d < |tx.vin[j].scriptSig| && tx.vin[j].scriptSig[d] == vKey;
      assert Contains(murmur, f, tx.vin[j].scriptSig[d]);
    }
  }

  /** What is watched is seen: a transaction that holds an inserted key is relevant after any operations. */
  lemma WatchedIsRelevant(murmur: Murmur, ser: Serialize, f: Filter, vKey: Data, ops: seq<Op>, tx: Transaction,
                          hash: Data)
    requires FlagsTrue(f) && LeavesTrace(f) && Holds(ser, tx, hash, vKey)
    ensures FlagsTrue(Insert(murmur, f, vKey))
    ensures Relevant(murmur, ser, After(murmur, ser, Insert(murmur, f, vKey), ops), tx, hash)
  {
    NoFalseNegative(murmur, ser, f, vKey, ops);
    var g := After(murmur, ser, Insert(murmur, f, vKey), ops);
    assert g.isFull || !g.isEmpty;
    hide FlagsTrue, Contains, Holds, Mentions, Relevant, Insert, LeavesTrace;
    HeldIsMentioned(murmur, ser, g, tx, hash, vKey);
    RelevantExactly(murmur, ser, g, tx, hash);
  }

  /** Whatever spends a matched output later is relevant itself, under BLOOM_UPDATE_ALL and, for outputs that pay
      to a key or are multisig, under BLOOM_UPDATE_P2PUBKEY_ONLY. */
  lemma SpendingIsRelevant(murmur: Murmur, ser: Serialize, f: Filter, tx: Transaction, hash: Data, i: nat, ops: seq<Op>,
                           later: Transaction, laterHash: Data, j: nat)
    requires FlagsTrue(f) && LeavesTrace(f) && i < |tx.vout|
    requires f.nFlags % 4 == 1 || (f.nFlags % 4 == 2 && tx.vout[i].fKeyOrMultisig)
    requires (f.isFull || (!f.isEmpty && OutputMatched(murmur, ser, f, tx, hash, i)))
    requires j < |later.vin| && later.vin[j].prevout == OutPoint(hash, i)
    ensures Relevant(murmur, ser, After(murmur, ser, AfterOutputs(murmur, ser, f, tx, hash), ops), later, laterHash)
  {
    var key := ser(OutPoint(hash, i));
    var g := AfterOutputs(murmur, ser, f, tx, hash);
    var h := After(murmur, ser, g, ops);
    RunGrows(murmur, ser, g, ops);
    OutputsGrow(murmur, ser, f, tx, hash);
    GrowsTransitive(f, g, h);
    if f.nHashFuncs >= 1 {
      OutputCovered(murmur, ser, f, tx, hash, i);
      StillContained(murmur, ser, g, ops, key);
    } else {
      InUse(murmur, f, h, key);
    }
    SpendsContained(murmur, ser, h, later, laterHash, j);
  }

  lemma OutputCovered(murmur: Murmur, ser: Serialize, f: Filter, tx: Transaction, hash: Data, i: nat)
    requires FlagsTrue(f) && f.nHashFuncs >= 1 && i < |tx.vout|
    requires f.nFlags % 4 == 1 || (f.nFlags % 4 == 2 && tx.vout[i].fKeyOrMultisig)
    requires (f.isFull || (!f.isEmpty && OutputMatched(murmur, ser, f, tx, hash, i)))
    ensures Covers(murmur, AfterOutputs(murmur, ser, f, tx, hash), ser(OutPoint(hash, i)))
  {
    hide FlagsTrue, Covers, Insert, Contains, ScriptMatches, Grows;
    var key := ser(OutPoint(hash, i));
    if f.isFull {
      FullContains(murmur, f, key);
      ContainsIsCovers(murmur, f, key);
    } else {
      NextOutput(murmur, ser, f, tx, hash, i);
      SameMode(murmur, ser, f, tx, hash, i);
      hide BeforeOutput, OutputMatched;
      var g := BeforeOutput(murmur, ser, f, tx, hash, i);
      InsertCovers(murmur, g, key);
      BeforeGrows(murmur, ser, f, tx, hash, i + 1, |tx.vout|);
      CoversKept(murmur, Insert(murmur, g, key), BeforeOutput(murmur, ser, f, tx, hash, |tx.vout|), key);
    }
  }

  /** Output i is matched when its turn comes, and the flags ask for its outpoint. */
  predicate Remembers(murmur: Murmur, ser: Serialize, f: Filter, tx: Transaction, hash: Data, i: nat)
    requires FlagsTrue(f) && i < |tx.vout|
  {
    && OutputMatched(murmur, ser, f, tx, hash, i)
    && (f.nFlags % 4 == 1 || (f.nFlags % 4 == 2 && tx.vout[i].fKeyOrMultisig))
  }

  /** Nothing else is put in: a bit that the first n outputs set is one of the outpoint of such an output. */
  lemma {:induction false} OnlyOutpoints(murmur: Murmur, ser: Serialize, f: Filter, tx: Transaction, hash: Data, n: nat,
                                         m: nat)
    requires FlagsTrue(f) && n <= |tx.vout| && m < 8 * |f.vData| && !BitAt(f.vData, m)
    ensures |BeforeOutput(murmur, ser, f, tx, hash, n).vData| == |f.vData|
    ensures BitAt(BeforeOutput(murmur, ser, f, tx, hash, n).vData, m) ==>
              exists i, k :: 0 <= i < n && 0 <= k < f.nHashFuncs && Remembers(murmur, ser, f, tx, hash, i)
                             && Hash(murmur, f, k, ser(OutPoint(hash, i))) == m
  {
    hide FlagsTrue, BitAt, Hash, Contains, ScriptMatches, OutputMatched, WithBits;
    if n != 0 {
      var g, h := BeforeOutput(murmur, ser, f, tx, hash, n - 1), BeforeOutput(murmur, ser, f, tx, hash, n);
      OnlyOutpoints(murmur, ser, f, tx, hash, n - 1, m);
      NextOutput(murmur, ser, f, tx, hash, n - 1);
      BeforeGrows(murmur, ser, f, tx, hash, 0, n - 1);
      NoOutput(murmur, ser, f, tx, hash);
      SameHashes(murmur, f, g, ser(OutPoint(hash, n - 1)));
      if h != g && !g.isFull {
        BitsAfter(murmur, g, ser(OutPoint(hash, n - 1)), g.nHashFuncs, m);
        assert Remembers(murmur, ser, f, tx, hash, n - 1);
      }
    } else {
      NoOutput(murmur, ser, f, tx, hash);
    }
  }

  lemma SameHashes(murmur: Murmur, f: Filter, g: Filter, vKey: Data)
    requires Grows(f, g)
    ensures g.nHashFuncs == f.nHashFuncs && g.nFlags == f.nFlags && |g.vData| == |f.vData|
    ensures f.vData != [] ==> forall k: nat :: Hash(murmur, g, k, vKey) == Hash(murmur, f, k, vKey)
  {
    hide BitAt;
  }

  lemma {:induction false} NoFlag(murmur: Murmur, ser: Serialize, f: Filter, tx: Transaction, hash: Data, n: nat)
    requires FlagsTrue(f) && n <= |tx.vout| && f.nFlags % 4 != 1 && f.nFlags % 4 != 2
    ensures BeforeOutput(murmur, ser, f, tx, hash, n) == f
  {
    hide FlagsTrue, ScriptMatches, Insert;
    if n != 0 {
      NoFlag(murmur, ser, f, tx, hash, n - 1);
    }
  }

  /** Without one of the two update flags a transaction leaves the filter as it was. */
  lemma NoFlagNoUpdate(murmur: Murmur, ser: Serialize, f: Filter, tx: Transaction, hash: Data)
    requires FlagsTrue(f) && f.nFlags % 4 != 1 && f.nFlags % 4 != 2
    ensures AfterOutputs(murmur, ser, f, tx, hash) == f
  {
    NoFlag(murmur, ser, f, tx, hash, |tx.vout|);
    hide FlagsTrue, BeforeOutput;
  }

  lemma FullInsert(murmur: Murmur, f: Filter, vKey: Data)
    requires FlagsTrue(f) && f.isFull
    ensures Insert(murmur, f, vKey) == f
  {
  }

  lemma FullContains(murmur: Murmur, f: Filter, vKey: Data)
    requires FlagsTrue(f) && f.isFull
    ensures Contains(murmur, f, vKey)
  {
  }

  lemma SameMode(murmur: Murmur, ser: Serialize, f: Filter, tx: Transaction, hash: Data, i: nat)
    requires FlagsTrue(f) && i <= |tx.vout|
    ensures BeforeOutput(murmur, ser, f, tx, hash, i).nFlags == f.nFlags
  {
    BeforeGrows(murmur, ser, f, tx, hash, 0, i);
  }

  lemma SpendsContained(murmur: Murmur, ser: Serialize, h: Filter, later: Transaction, laterHash: Data, j: nat)
    requires FlagsTrue(h) && j < |later.vin| && Contains(murmur, h, ser(later.vin[j].prevout))
    ensures Relevant(murmur, ser, h, later, laterHash)
  {
    var key := ser(later.vin[j].prevout);
    var g := AfterOutputs(murmur, ser, h, later, laterHash);
    if h.nHashFuncs == 0 {
      assert Contains(murmur, h, laterHash);
    } else {
      ContainsIsCovers(murmur, h, key);
      OutputsGrow(murmur, ser, h, later, laterHash);
      CoversKept(murmur, h, g, key);
      ContainsIsCovers(murmur, g, key);
      hide FlagsTrue, BeforeOutput;
      assert InputMatches(murmur, ser, g, later.vin[j]);
    }
  }

  // ---------- The code ----------

  class CBloomFilter {
    const murmur: Murmur
    const ser: Serialize
    const vData: array<bv8>
    var isFull: bool
    var isEmpty: bool
    const nHashFuncs: nat
    const nTweak: nat
    const nFlags: nat

    function View(): Filter
      reads this, vData
    {
      Filter(vData[..], isFull, isEmpty, nHashFuncs, nTweak, nFlags)
    }

    ghost predicate Valid()
      reads this, vData
    {
      FlagsTrue(View())
    }

    /** The sizes that the floating point formulas give come as arguments; a filter without data counts as full. */
    constructor (murmur: Murmur, ser: Serialize, nBytes: nat, nHashFuncs: nat, nTweak: nat, nFlags: nat)
      requires nBytes > 0
      ensures Valid() && fresh(vData) && this.nHashFuncs == nHashFuncs && this.nFlags == nFlags
      ensures View() == Filter(seq(nBytes, _ => 0), false, false, nHashFuncs, nTweak, nFlags)
    {
      this.murmur, this.ser, this.nHashFuncs, this.nTweak, this.nFlags := murmur, ser, nHashFuncs, nTweak, nFlags;
      isFull, isEmpty := false, false;
      vData := new bv8[nBytes](_ => 0);
      new;
      assert vData[..] == seq(nBytes, _ => 0);
    }

    method InsertKey(vKey: Data)
      requires Valid()
      modifies this`isEmpty, vData
      ensures View() == Insert(murmur, old(View()), vKey) && Valid()
    {
      hide FlagsTrue, Insert;
      if isFull {
        FullInsert(murmur, View(), vKey);
        return;
      }
      ghost var f := View();
      InsertGrows(murmur, f, vKey);
      Inserted(murmur, f, vKey);
      SetBits(vKey, f);
      isEmpty := false;
    }

    method SetBits(vKey: Data, ghost f: Filter)
      requires vData[..] == f.vData != [] && nTweak == f.nTweak
      modifies vData
      ensures vData[..] == WithBits(murmur, f, vKey, nHashFuncs)
    {
      hide *;
      NoBits(murmur, f, vKey);
      var i := 0;
      while i < nHashFuncs
        invariant i <= nHashFuncs && vData[..] == WithBits(murmur, f, vKey, i)
      {
        var nIndex := HashOf(i, vKey);
        MoreBits(murmur, f, vKey, i, nIndex);
        SetOneBit(nIndex);
        i := i + 1;
      }
    }

    method HashOf(i: nat, vKey: Data) returns (nIndex: nat)
      requires vData.Length > 0
      ensures nIndex < 8 * vData.Length
      ensures nIndex == murmur((i * 0xFBA4C795 + nTweak) % 0x1_0000_0000, vKey) % (8 * vData.Length)
    {
      nIndex := murmur((i * 0xFBA4C795 + nTweak) % 0x1_0000_0000, vKey) % (vData.Length * 8);
    }

    method SetOneBit(nIndex: nat)
      requires nIndex < 8 * vData.Length
      modifies vData
      ensures vData[..] == old(vData[..])[nIndex / 8 := old(vData[nIndex / 8]) | Mask(nIndex % 8)]
    {
      vData[nIndex / 8] := vData[nIndex / 8] | Mask(nIndex % 8);
    }

    method ContainsKey(vKey: Data) returns (r: bool)
      requires Valid()
      ensures r == Contains(murmur, View(), vKey)
    {
      if isFull {
        return true;
      }
      if isEmpty {
        return false;
      }
      var i := 0;
      while i < nHashFuncs
        invariant i <= nHashFuncs
        invariant forall k | 0 <= k < i :: BitAt(vData[..], Hash(murmur, View(), k, vKey))
      {
        hide FlagsTrue;
        var nIndex := murmur((i * 0xFBA4C795 + nTweak) % 0x1_0000_0000, vKey) % (vData.Length * 8);
        assert nIndex == Hash(murmur, View(), i, vKey);
        if vData[nIndex / 8] & Mask(nIndex % 8) == 0 {
          return false;
        }
        i := i + 1;
      }
      return true;
    }

    method UpdateFlags()
      modifies this`isFull, this`isEmpty
      ensures View() == UpdateEmptyFull(old(View()))
      ensures isFull <==> forall i | 0 <= i < vData.Length :: vData[i] == 0xff
      ensures isEmpty <==> forall i | 0 <= i < vData.Length :: vData[i] == 0
      ensures Valid()
    {
      var full := true;
      var empty := true;
      var i := 0;
      while i < vData.Length
        invariant i <= vData.Length
        invariant full == AllAre(vData[..i], 0xff) && empty == AllAre(vData[..i], 0)
      {
        full := full && vData[i] == 0xff;
        empty := empty && vData[i] == 0;
        i := i + 1;
      }
      assert vData[..i] == vData[..];
      UpdateGrows(old(View()));
      isFull := full;
      isEmpty := empty;
    }

    method Matches(script: Script) returns (r: bool)
      requires Valid()
      ensures r == ScriptMatches(murmur, View(), script)
    {
      hide FlagsTrue, Contains;
      var d := 0;
      while d < |script|
        invariant d <= |script|
        invariant forall k | 0 <= k < d :: script[k] == [] || !Contains(murmur, View(), script[k])
      {
        var found := ContainsKey(script[d]);
        if script[d] != [] && found {
          return true;
        }
        d := d + 1;
      }
      return false;
    }

    method IsRelevantAndUpdate(tx: Transaction, hash: Data) returns (r: bool)
      requires Valid()
      modifies this`isEmpty, vData
      ensures r == Relevant(murmur, ser, old(View()), tx, hash)
      ensures r ==> old(isFull) || !old(isEmpty)
      ensures !r ==> !old(isFull)
      ensures !r && !old(isEmpty) ==>
                && !Contains(murmur, old(View()), hash)
                && (forall i, d | 0 <= i < |tx.vout| && 0 <= d < |tx.vout[i].scriptPubKey| ::
                  tx.vout[i].scriptPubKey[d] == [] || !Contains(murmur, old(View()), tx.vout[i].scriptPubKey[d]))
                && (forall j | 0 <= j < |tx.vin| :: !Contains(murmur, old(View()), ser(tx.vin[j].prevout)))
                && (forall j, d | 0 <= j < |tx.vin| && 0 <= d < |tx.vin[j].scriptSig| ::
                  tx.vin[j].scriptSig[d] == [] || !Contains(murmur, old(View()), tx.vin[j].scriptSig[d]))
      ensures View() == AfterOutputs(murmur, ser, old(View()), tx, hash) && Valid()
    {
      ghost var f := View();
      RelevantExactly(murmur, ser, f, tx, hash);
      var fFound := false;
      if isFull {
        return true;
      }
      if isEmpty {
        return false;
      }
      hide FlagsTrue, Contains, ScriptMatches, Insert, BeforeOutput, OutputMatched, InputMatches;
      var hashFound := ContainsKey(hash);
      if hashFound {
        fFound := true;
      }
      var outputFound := MatchOutputs(tx, hash);
      if outputFound {
        fFound := true;
      }
      if fFound {
        return true;
      }
      r := MatchInputs(tx);
    }

    /** The loop over the outputs; the matched ones go into the filter. */
    method MatchOutputs(tx: Transaction, hash: Data) returns (fFound: bool)
      requires Valid()
      modifies this`isEmpty, vData
      ensures fFound <==> exists k :: 0 <= k < |tx.vout| && OutputMatched(murmur, ser, old(View()), tx, hash, k)
      ensures View() == BeforeOutput(murmur, ser, old(View()), tx, hash, |tx.vout|) && Valid()
    {
      ghost var f := View();
      hide FlagsTrue, ScriptMatches, Insert, OutputMatched;
      fFound := false;
      var i := 0;
      NoOutput(murmur, ser, f, tx, hash);
      while i < |tx.vout|
        invariant i <= |tx.vout| && Valid() && View() == BeforeOutput(murmur, ser, f, tx, hash, i)
        invariant fFound <==> exists k :: 0 <= k < i && OutputMatched(murmur, ser, f, tx, hash, k)
      {
        hide BeforeOutput, Follows;
        var txout := tx.vout[i];
        var matched := Matches(txout.scriptPubKey);
        NextOutput(murmur, ser, f, tx, hash, i);
        if matched {
          fFound := true;
          if nFlags % (BLOOM_UPDATE_MASK + 1) == BLOOM_UPDATE_ALL {
            InsertKey(ser(OutPoint(hash, i)));
          } else if nFlags % (BLOOM_UPDATE_MASK + 1) == BLOOM_UPDATE_P2PUBKEY_ONLY {
            if txout.fKeyOrMultisig {
              InsertKey(ser(OutPoint(hash, i)));
            }
          }
        }
        i := i + 1;
      }
    }

    /** The loop over the inputs. */
    method MatchInputs(tx: Transaction) returns (r: bool)
      requires Valid()
      ensures r <==> exists j :: 0 <= j < |tx.vin| && InputMatches(murmur, ser, View(), tx.vin[j])
    {
      hide FlagsTrue, ScriptMatches, Contains;
      var j := 0;
      while j < |tx.vin|
        invariant j <= |tx.vin|
        invariant forall k | 0 <= k < j :: !InputMatches(murmur, ser, View(), tx.vin[k])
      {
        var spends := ContainsKey(ser(tx.vin[j].prevout));
        if spends {
          assert InputMatches(murmur, ser, View(), tx.vin[j]);
          return true;
        }
        var matched := Matches(tx.vin[j].scriptSig);
        if matched {
          assert InputMatches(murmur, ser, View(), tx.vin[j]);
          return true;
        }
        j := j + 1;
      }
      return false;
    }
  }

  lemma NoBits(murmur: Murmur, f: Filter, vKey: Data)
    ensures f.vData != [] ==> WithBits(murmur, f, vKey, 0) == f.vData
  {
  }

  lemma MoreBits(murmur: Murmur, f: Filter, vKey: Data, i: nat, n: nat)
    requires f.vData != [] && n == murmur((i * 0xFBA4C795 + f.nTweak) % 0x1_0000_0000, vKey) % (8 * |f.vData|)
    ensures var v := WithBits(murmur, f, vKey, i);
            n < 8 * |f.vData| && WithBits(murmur, f, vKey, i + 1) == v[n / 8 := v[n / 8] | Mask(n % 8)]
  {
  }

  lemma Inserted(murmur: Murmur, f: Filter, vKey: Data)
    requires FlagsTrue(f) && !f.isFull
    ensures f.vData != []
    ensures Insert(murmur, f, vKey) == f.(vData := WithBits(murmur, f, vKey, f.nHashFuncs), isEmpty := false)
  {
  }

  lemma NoOutput(murmur: Murmur, ser: Serialize, f: Filter, tx: Transaction, hash: Data)
    requires FlagsTrue(f)
    ensures BeforeOutput(murmur, ser, f, tx, hash, 0) == f
  {
  }

  lemma NextOutput(murmur: Murmur, ser: Serialize, f: Filter, tx: Transaction, hash: Data, i: nat)
    requires FlagsTrue(f) && i < |tx.vout|
    ensures var g, out := BeforeOutput(murmur, ser, f, tx, hash, i), tx.vout[i];
            var mode := g.nFlags % (BLOOM_UPDATE_MASK + 1);
            && OutputMatched(murmur, ser, f, tx, hash, i) == ScriptMatches(murmur, g, out.scriptPubKey)
            && BeforeOutput(murmur, ser, f, tx, hash, i + 1) ==
                 if ScriptMatches(murmur, g, out.scriptPubKey)
                    && (mode == BLOOM_UPDATE_ALL || (mode == BLOOM_UPDATE_P2PUBKEY_ONLY && out.fKeyOrMultisig))
                 then Insert(murmur, g, ser(OutPoint(hash, i))) else g
  {
    hide FlagsTrue, ScriptMatches, Insert;
  }
}

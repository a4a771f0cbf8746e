/** Synchronized checkpoints (src/checkpoints.cpp:99-236, 383-430) together with the blocks they guard
    (src/main.cpp:2109-2204, checkpoints enforced): a checkpoint only ever moves to a descendant. */
module SyncCheckpoint {
  import opened BlockTree

  const nCheckpointSpan: nat := 10
  const nTargetSpacing: nat := 120

  /** The null hash. */
  const NO_HASH: Id := 0

  /** What disk, database and chain switching do in one call. */
  datatype Luck = Luck(inMainChain: bool, readOk: bool, bestOk: bool, writeOk: bool)

  /** What the other checks of a block, writing it and indexing it do. */
  datatype Fate = Fate(checksOk: bool, indexed: bool, indexOk: bool, luck: Luck)

  datatype State = State(
    mapBlockIndex: Tree, hashSyncCheckpoint: Id, hashPendingCheckpoint: Id, hashInvalidCheckpoint: Id)

  /** The checkpoint is always an accepted block. */
  ghost predicate Ok(s: State) {
    WellFormed(s.mapBlockIndex) && s.hashSyncCheckpoint in s.mapBlockIndex
  }

  // ---------- The single calls, as functions of the state ----------

  /** How a block relates to the current checkpoint. */
  datatype Relation = Unknown | Older | Newer | Unrelated

  function Relate(s: State, h: Id): Relation
    requires Ok(s)
  {
    if h !in s.mapBlockIndex then Unknown
    else if IsAncestor(s.mapBlockIndex, h, s.hashSyncCheckpoint) then Older
    else if IsAncestor(s.mapBlockIndex, s.hashSyncCheckpoint, h) then Newer
    else Unrelated
  }

  /** Only a block that is neither before nor after the checkpoint is flagged invalid. */
  function Flagged(s: State, h: Id): State
    requires Ok(s)
  {
    if Relate(s, h) == Unrelated then s.(hashInvalidCheckpoint := h) else s
  }

  /** A known block that neither descends from another nor is one of its ancestors. */
  predicate OffBranch(t: Tree, a: Id, b: Id)
    requires WellFormed(t)
  {
    b in t && !IsAncestor(t, a, b) && !IsAncestor(t, b, a)
  }

  lemma OffBranchIs(s: State, h: Id)
    requires Ok(s)
    ensures OffBranch(s.mapBlockIndex, s.hashSyncCheckpoint, h) <==> Relate(s, h) == Unrelated
  {
    hide WellFormed, IsAncestor;
  }

  /** The rest of taking a valid checkpoint over. */
  function Adopt(s: State, h: Id, luck: Luck): State {
    if !luck.inMainChain && !luck.readOk then s
    else if !luck.inMainChain && !luck.bestOk then s.(hashInvalidCheckpoint := h)
    else if !luck.writeOk then s
    else s.(hashSyncCheckpoint := h, hashPendingCheckpoint := NO_HASH)
  }

  function Message(s: State, h: Id, luck: Luck): State
    requires Ok(s)
  {
    if h !in s.mapBlockIndex then s.(hashPendingCheckpoint := h)
    else if Relate(s, h) != Newer then Flagged(s, h)
    else Adopt(s, h, luck)
  }

  function Pending(s: State, luck: Luck): State
    requires Ok(s)
  {
    var h := s.hashPendingCheckpoint;
    if h == NO_HASH || h !in s.mapBlockIndex then s
    else if Relate(s, h) != Newer then Flagged(s, h).(hashPendingCheckpoint := NO_HASH)
    else Adopt(s, h, luck)
  }

  /** What CheckSync lets through. */
  function Passes(s: State, hash: Id, prev: Id): bool
    requires Ok(s) && prev in s.mapBlockIndex
  {
    var t, sync := s.mapBlockIndex, s.hashSyncCheckpoint;
    var nHeight := t[prev].nHeight + 1;
    if nHeight > t[sync].nHeight then IsAncestor(t, sync, prev)
    else if nHeight == t[sync].nHeight then hash == sync
    else hash in t
  }

  function Placed(t: Tree, header: Block, prev: Id): Block
    requires prev in t
  {
    header.(pprev := To(prev), nHeight := t[prev].nHeight + 1)
  }

  function Accept(s: State, hash: Id, prev: Id, header: Block, fate: Fate): State
    requires Ok(s)
  {
    if hash in s.mapBlockIndex || prev !in s.mapBlockIndex || !fate.checksOk || !Passes(s, hash, prev) then s
    else if !fate.indexed then s
    else
      var s1 := s.(mapBlockIndex := s.mapBlockIndex[hash := Placed(s.mapBlockIndex, header, prev)]);
      InsertOk(s, hash, prev, header);
      if fate.indexOk then Pending(s1, fate.luck) else s1
  }

  lemma InsertOk(s: State, hash: Id, prev: Id, header: Block)
    requires Ok(s) && hash !in s.mapBlockIndex && prev in s.mapBlockIndex
    ensures Ok(s.(mapBlockIndex := s.mapBlockIndex[hash := Placed(s.mapBlockIndex, header, prev)]))
  {
    var t := s.mapBlockIndex;
    var t' := t[hash := Placed(t, header, prev)];
    forall b | b in t'
      ensures WellPlaced(t', t'[b])
    {
      if b != hash {
        assert WellPlaced(t, t[b]);
      }
    }
  }

  // ---------- Runs ----------

  datatype Event =
    | OnMessage(h: Id, luck: Luck)
    | OnPending(luck: Luck)
    | OnBlock(hash: Id, prev: Id, header: Block, fate: Fate)

  function Step(s: State, e: Event): State
    requires Ok(s)
  {
    match e
    case OnMessage(h, luck) => Message(s, h, luck)
    case OnPending(luck) => Pending(s, luck)
    case OnBlock(hash, prev, header, fate) => Accept(s, hash, prev, header, fate)
  }

  /** The index only grows, and the checkpoint stays or moves to a strict descendant. */
  ghost predicate Advances(s: State, r: State)
    requires Ok(s)
  {
    && Ok(r)
    && (forall b | b in s.mapBlockIndex :: b in r.mapBlockIndex && r.mapBlockIndex[b] == s.mapBlockIndex[b])
    && IsAncestor(r.mapBlockIndex, s.hashSyncCheckpoint, r.hashSyncCheckpoint)
  }

  lemma AncestorKept(t: Tree, u: Tree, a: Id, b: Id)
    requires WellFormed(t) && WellFormed(u) && forall c | c in t :: c in u && u[c] == t[c]
    requires IsAncestor(t, a, b)
    ensures IsAncestor(u, a, b)
  {
    BackKept(t, u, b, t[b].nHeight - t[a].nHeight);
  }

  lemma AdvancesTransitive(s: State, r: State, q: State)
    requires Ok(s) && Advances(s, r) && Advances(r, q)
    ensures Advances(s, q)
  {
    AncestorKept(r.mapBlockIndex, q.mapBlockIndex, s.hashSyncCheckpoint, r.hashSyncCheckpoint);
    AncestorTransitive(q.mapBlockIndex, s.hashSyncCheckpoint, r.hashSyncCheckpoint, q.hashSyncCheckpoint);
    hide WellFormed, IsAncestor;
  }

  lemma AdoptAdvances(s: State, h: Id, luck: Luck)
    requires Ok(s) && Relate(s, h) == Newer
    ensures Advances(s, Adopt(s, h, luck))
  {
    hide WellFormed;
  }

  lemma PendingAdvances(s: State, luck: Luck)
    requires Ok(s)
    ensures Advances(s, Pending(s, luck))
  {
    hide WellFormed, Adopt;
    if Relate(s, s.hashPendingCheckpoint) == Newer {
      AdoptAdvances(s, s.hashPendingCheckpoint, luck);
    }
  }

  lemma InsertAdvances(s: State, hash: Id, prev: Id, header: Block)
    requires Ok(s) && hash !in s.mapBlockIndex && prev in s.mapBlockIndex
    ensures Advances(s, s.(mapBlockIndex := s.mapBlockIndex[hash := Placed(s.mapBlockIndex, header, prev)]))
  {
    InsertOk(s, hash, prev, header);
    hide WellFormed;
  }

  lemma StepAdvances(s: State, e: Event)
    requires Ok(s)
    ensures Advances(s, Step(s, e))
  {
    hide WellFormed, Adopt, Pending, Relate, Advances, Placed;
    match e
    case OnMessage(h, luck) =>
      Same(s);
      MessageAdvances(s, h, luck);
    case OnPending(luck) =>
      PendingAdvances(s, luck);
    case OnBlock(hash, prev, header, fate) =>
      Same(s);
      if hash !in s.mapBlockIndex && prev in s.mapBlockIndex {
        InsertAdvances(s, hash, prev, header);
        InsertOk(s, hash, prev, header);
        var s1 := s.(mapBlockIndex := s.mapBlockIndex[hash := Placed(s.mapBlockIndex, header, prev)]);
        PendingAdvances(s1, fate.luck);
        AdvancesTransitive(s, s1, Pending(s1, fate.luck));
      }
  }

  lemma Same(s: State)
    requires Ok(s)
    ensures Advances(s, s)
  {
    hide WellFormed;
  }

  lemma MessageAdvances(s: State, h: Id, luck: Luck)
    requires Ok(s)
    ensures Advances(s, Message(s, h, luck))
  {
    hide WellFormed, Adopt;
    if Relate(s, h) == Newer {
      AdoptAdvances(s, h, luck);
    }
  }

  /** A block that gets into the index descends from the checkpoint. */
  lemma NewBlockDescends(s: State, e: Event, b: Id)
    requires Ok(s) && b in Step(s, e).mapBlockIndex && b !in s.mapBlockIndex
    ensures Ok(Step(s, e)) && IsAncestor(Step(s, e).mapBlockIndex, s.hashSyncCheckpoint, b)
  {
    StepAdvances(s, e);
    var t, u, sync := s.mapBlockIndex, Step(s, e).mapBlockIndex, s.hashSyncCheckpoint;
    assert e.OnBlock? && b == e.hash;
    var prev := e.prev;
    assert Passes(s, b, prev);
    assert u[b] == Placed(t, e.header, prev);
    hide WellFormed, Step, Passes, Pending, Relate;
    assert IsAncestor(t, sync, prev);
    AncestorKept(t, u, sync, prev);
    BackIsAncestor(u, b, 1);
    AncestorTransitive(u, sync, prev, b);
  }

  ghost predicate IsRun(states: seq<State>, events: seq<Event>) {
    && |states| == |events| + 1 && Ok(states[0])
    && (forall i | 0 <= i < |events| :: Ok(states[i]) && states[i + 1] == Step(states[i], events[i]))
  }

  /** Over a whole run the checkpoint is an accepted block and only moves forward along one chain. */
  lemma {:induction false} RunAdvances(states: seq<State>, events: seq<Event>, i: nat, j: nat)
    requires IsRun(states, events) && i <= j < |states|
    ensures Ok(states[i]) && Advances(states[i], states[j])
    decreases j
  {
    hide Advances, Step, Ok;
    RunOk(states, events, i);
    if i == j {
      Same(states[i]);
    } else {
      RunAdvances(states, events, i, j - 1);
      StepAdvances(states[j - 1], events[j - 1]);
      AdvancesTransitive(states[i], states[j - 1], states[j]);
    }
  }

  lemma RunOk(states: seq<State>, events: seq<Event>, i: nat)
    requires IsRun(states, events) && i < |states|
    ensures Ok(states[i])
  {
    if i > 0 {
      StepAdvances(states[i - 1], events[i - 1]);
    }
  }

  /** A block accepted at step j descends from every checkpoint adopted up to then, and still does at the end. */
  lemma BlocksDescendFromCheckpoints(states: seq<State>, events: seq<Event>, i: nat, j: nat, b: Id)
    requires IsRun(states, events) && i <= j < |events|
    requires b !in states[j].mapBlockIndex && b in states[j + 1].mapBlockIndex
    ensures var last := states[|states| - 1].mapBlockIndex;
            WellFormed(last) && IsAncestor(last, states[i].hashSyncCheckpoint, b)
  {
    hide Advances, Ok, WellFormed, IsAncestor, Step;
    RunAdvances(states, events, i, j);
    RunAdvances(states, events, j, j + 1);
    RunAdvances(states, events, j + 1, |events|);
    NewBlockDescends(states[j], events[j], b);
    DescendsEverAfter(states[i], states[j], states[j + 1], states[|events|], b);
  }

  lemma DescendsEverAfter(s: State, r: State, q: State, last: State, b: Id)
    requires Ok(s) && Ok(r) && Ok(q) && Advances(s, r) && Advances(r, q) && Advances(q, last)
    requires IsAncestor(q.mapBlockIndex, r.hashSyncCheckpoint, b)
    ensures WellFormed(last.mapBlockIndex) && IsAncestor(last.mapBlockIndex, s.hashSyncCheckpoint, b)
  {
    hide WellFormed, IsAncestor;
    AncestorKept(r.mapBlockIndex, q.mapBlockIndex, s.hashSyncCheckpoint, r.hashSyncCheckpoint);
    AncestorTransitive(q.mapBlockIndex, s.hashSyncCheckpoint, r.hashSyncCheckpoint, b);
    AncestorKept(q.mapBlockIndex, last.mapBlockIndex, s.hashSyncCheckpoint, b);
  }

  // ---------- Checkpoints are adopted ----------

  /** The block is on the best chain or can be made so, and the checkpoint can be written. */
  predicate CanTake(luck: Luck) {
    (luck.inMainChain || (luck.readOk && luck.bestOk)) && luck.writeOk
  }

  predicate IsBelow(t: Tree, a: Id, b: Id)
    requires WellFormed(t)
  {
    a != b && IsAncestor(t, a, b)
  }

  lemma NewerIsBelow(s: State, h: Id)
    requires Ok(s)
    ensures Relate(s, h) == Newer <==> IsBelow(s.mapBlockIndex, s.hashSyncCheckpoint, h)
  {
    hide WellFormed;
  }

  /** A message makes its block the checkpoint exactly when that is a known strict descendant of the checkpoint
      that can be taken; nothing is pending then. A block that is not known becomes pending; any other message
      leaves what is pending. */
  lemma MessageAdopts(s: State, h: Id, luck: Luck)
    requires Ok(s)
    ensures var r, adopted := Step(s, OnMessage(h, luck)),
                              IsBelow(s.mapBlockIndex, s.hashSyncCheckpoint, h) && CanTake(luck);
            && r.mapBlockIndex == s.mapBlockIndex
            && r.hashSyncCheckpoint == (if adopted then h else s.hashSyncCheckpoint)
            && r.hashPendingCheckpoint == (if adopted then NO_HASH else if h !in s.mapBlockIndex then h
                                           else s.hashPendingCheckpoint)
  {
    NewerIsBelow(s, h);
    OnlyKnown(s, h);
    hide WellFormed, IsBelow, Relate;
  }

  lemma OnlyKnown(s: State, h: Id)
    requires Ok(s)
    ensures IsBelow(s.mapBlockIndex, s.hashSyncCheckpoint, h) ==> h in s.mapBlockIndex
  {
  }

  /** A pending checkpoint whose block is known is adopted exactly when that is a strict descendant of the
      checkpoint that can be taken; one that is not is dropped, and one that cannot be taken now stays pending. */
  lemma PendingAdopts(s: State, luck: Luck)
    requires Ok(s)
    ensures var r, h := Step(s, OnPending(luck)), s.hashPendingCheckpoint;
            var known, below := h != NO_HASH && h in s.mapBlockIndex,
                                IsBelow(s.mapBlockIndex, s.hashSyncCheckpoint, h);
            && r.mapBlockIndex == s.mapBlockIndex
            && r.hashSyncCheckpoint == (if known && below && CanTake(luck) then h else s.hashSyncCheckpoint)
            && r.hashPendingCheckpoint == (if known && (!below || CanTake(luck)) then NO_HASH else h)
  {
    NewerIsBelow(s, s.hashPendingCheckpoint);
    hide WellFormed, IsAncestor, Relate, IsBelow;
  }

  /** The block of a pending checkpoint, once indexed, becomes the checkpoint if it can be taken. */
  lemma ArrivalAdopts(s: State, hash: Id, prev: Id, header: Block, fate: Fate)
    requires Ok(s) && hash != NO_HASH && s.hashPendingCheckpoint == hash && hash !in s.mapBlockIndex
    requires hash in Step(s, OnBlock(hash, prev, header, fate)).mapBlockIndex && fate.indexOk && CanTake(fate.luck)
    ensures var r := Step(s, OnBlock(hash, prev, header, fate));
            r.hashSyncCheckpoint == hash && r.hashPendingCheckpoint == NO_HASH
  {
    InsertOk(s, hash, prev, header);
    var s1 := s.(mapBlockIndex := s.mapBlockIndex[hash := Placed(s.mapBlockIndex, header, prev)]);
    NewBlockDescends(s, OnBlock(hash, prev, header, fate.(indexOk := false)), hash);
    PendingAdopts(s1, fate.luck);
    hide WellFormed, IsAncestor, Relate, Pending;
  }

  /** Between a message for an unknown block and the arrival of that block it stays pending, whatever else
      happens but another message. */
  lemma {:induction false} StaysPending(states: seq<State>, events: seq<Event>, i: nat, j: nat, h: Id)
    requires IsRun(states, events) && i < j <= |events| && h != NO_HASH
    requires events[i].OnMessage? && events[i].h == h
    requires forall k | i < k < j :: !events[k].OnMessage?
    requires h !in states[j].mapBlockIndex
    ensures Ok(states[j]) && states[j].hashPendingCheckpoint == h
    decreases j
  {
    hide Step, Ok;
    RunOk(states, events, j - 1);
    RunOk(states, events, j);
    var s, e := states[j - 1], events[j - 1];
    IndexGrows(s, e, h);
    if j - 1 == i {
      BecomesPending(s, e);
    } else {
      StaysPending(states, events, i, j - 1, h);
      NotYetKnown(s, e, h);
    }
  }

  lemma IndexGrows(s: State, e: Event, h: Id)
    requires Ok(s) && h !in Step(s, e).mapBlockIndex
    ensures h !in s.mapBlockIndex
  {
    StepAdvances(s, e);
    hide Ok, WellFormed, Step, IsAncestor;
  }

  lemma BecomesPending(s: State, e: Event)
    requires Ok(s) && e.OnMessage? && e.h !in s.mapBlockIndex
    ensures Step(s, e).hashPendingCheckpoint == e.h
  {
    MessageAdopts(s, e.h, e.luck);
    OnlyKnown(s, e.h);
    hide Ok, Step, IsBelow;
  }

  lemma NotYetKnown(s: State, e: Event, h: Id)
    requires Ok(s) && s.hashPendingCheckpoint == h && !e.OnMessage? && h !in Step(s, e).mapBlockIndex
    requires h !in s.mapBlockIndex
    ensures Step(s, e).hashPendingCheckpoint == h
  {
    hide WellFormed, Relate, Passes;
    if e.OnBlock? && e.hash !in s.mapBlockIndex && e.prev in s.mapBlockIndex {
      InsertOk(s, e.hash, e.prev, e.header);
      var s1 := s.(mapBlockIndex := s.mapBlockIndex[e.hash := Placed(s.mapBlockIndex, e.header, e.prev)]);
      PendingKeepsIndex(s1, e.fate.luck);
    }
  }

  /** A message for a block that is not known yet takes effect when the block is indexed, if no message comes in
      between and it can be taken then: the block is the checkpoint and nothing is pending. */
  lemma PendingTakesEffect(states: seq<State>, events: seq<Event>, i: nat, j: nat)
    requires IsRun(states, events) && i < j < |events|
    requires events[i].OnMessage? && events[j].OnBlock? && events[j].hash == events[i].h != NO_HASH
    requires forall k | i < k < j :: !events[k].OnMessage?
    requires events[i].h !in states[j].mapBlockIndex && events[i].h in states[j + 1].mapBlockIndex
    requires events[j].fate.indexOk && CanTake(events[j].fate.luck)
    ensures states[j + 1].hashSyncCheckpoint == events[i].h && states[j + 1].hashPendingCheckpoint == NO_HASH
  {
    hide Ok, Step, CanTake;
    var h, e := events[i].h, events[j];
    StaysPending(states, events, i, j, h);
    ArrivalAdopts(states[j], h, e.prev, e.header, e.fate);
  }

  // ---------- The code ----------

  class Checkpoints {
    var mapBlockIndex: Tree
    var hashSyncCheckpoint: Id
    var hashPendingCheckpoint: Id
    var hashInvalidCheckpoint: Id

    function View(): State
      reads this
    {
      State(mapBlockIndex, hashSyncCheckpoint, hashPendingCheckpoint, hashInvalidCheckpoint)
    }

    ghost predicate Valid()
      reads this
    {
      Ok(View())
    }

    /** A new node: genesis alone is accepted and is the checkpoint. */
    constructor (hashGenesis: Id, genesis: Block)
      requires genesis.pprev == Null && genesis.nHeight == 0
      ensures Valid() && mapBlockIndex == map[hashGenesis := genesis] && hashSyncCheckpoint == hashGenesis
      ensures hashPendingCheckpoint == NO_HASH && hashInvalidCheckpoint == NO_HASH
    {
      mapBlockIndex := map[hashGenesis := genesis];
      hashSyncCheckpoint := hashGenesis;
      hashPendingCheckpoint := NO_HASH;
      hashInvalidCheckpoint := NO_HASH;
    }

    /** pindex traced back to a height. */
    method TraceBack(start: Id, nHeight: nat) returns (pindex: Id)
      requires Valid() && start in mapBlockIndex && nHeight <= mapBlockIndex[start].nHeight
      ensures pindex == Back(mapBlockIndex, start, mapBlockIndex[start].nHeight - nHeight)
    {
      pindex := start;
      while mapBlockIndex[pindex].nHeight > nHeight
        invariant pindex in mapBlockIndex && nHeight <= mapBlockIndex[pindex].nHeight <= mapBlockIndex[start].nHeight
        invariant pindex == Back(mapBlockIndex, start, mapBlockIndex[start].nHeight - mapBlockIndex[pindex].nHeight)
        decreases mapBlockIndex[pindex].nHeight
      {
        BackNext(mapBlockIndex, start, mapBlockIndex[start].nHeight - mapBlockIndex[pindex].nHeight);
        hide WellFormed;
        pindex := mapBlockIndex[pindex].pprev.id;
      }
    }

    method ValidateSyncCheckpoint(hashCheckpoint: Id) returns (ok: bool)
      requires Valid()
      modifies this`hashInvalidCheckpoint
      ensures ok <==> Relate(old(View()), hashCheckpoint) == Newer
      ensures View() == Flagged(old(View()), hashCheckpoint) && Valid()
      ensures hashInvalidCheckpoint ==
              if OffBranch(mapBlockIndex, hashSyncCheckpoint, hashCheckpoint) then hashCheckpoint
              else old(hashInvalidCheckpoint)
    {
      OffBranchIs(View(), hashCheckpoint);
      hide OffBranch;
      if hashCheckpoint !in mapBlockIndex {
        return false;
      }
      var sync := hashSyncCheckpoint;
      if mapBlockIndex[hashCheckpoint].nHeight <= mapBlockIndex[sync].nHeight {
        var pindex := TraceBack(sync, mapBlockIndex[hashCheckpoint].nHeight);
        hide WellFormed, Back;
        EqualHeights(mapBlockIndex, sync, hashCheckpoint);
        if pindex != hashCheckpoint {
          hashInvalidCheckpoint := hashCheckpoint;
        }
        return false;
      }
      var pindex := TraceBack(hashCheckpoint, mapBlockIndex[sync].nHeight);
      hide WellFormed, Back;
      if pindex != sync {
        hashInvalidCheckpoint := hashCheckpoint;
        return false;
      }
      return true;
    }

    /** The common end of both ways to take a checkpoint over. */
    method TakeOver(h: Id, luck: Luck) returns (ok: bool)
      requires Valid() && Relate(View(), h) == Newer
      modifies this
      ensures View() == Adopt(old(View()), h, luck) && Valid()
      ensures ok <==> CanTake(luck)
      ensures hashSyncCheckpoint == if ok then h else old(hashSyncCheckpoint)
      ensures hashPendingCheckpoint == if ok then NO_HASH else old(hashPendingCheckpoint)
      ensures hashInvalidCheckpoint ==
              if !luck.inMainChain && luck.readOk && !luck.bestOk then h else old(hashInvalidCheckpoint)
      ensures mapBlockIndex == old(mapBlockIndex)
    {
      if !luck.inMainChain {
        if !luck.readOk {
          return false;
        }
        if !luck.bestOk {
          hashInvalidCheckpoint := h;
          return false;
        }
      }
      if !luck.writeOk {
        return false;
      }
      hashSyncCheckpoint := h;
      hashPendingCheckpoint := NO_HASH;
      return true;
    }

    method AcceptPendingSyncCheckpoint(luck: Luck) returns (ok: bool)
      requires Valid()
      modifies this
      ensures View() == Pending(old(View()), luck) && Valid()
      ensures ok ==> hashSyncCheckpoint == old(hashPendingCheckpoint) && hashPendingCheckpoint == NO_HASH
      ensures !ok ==> hashSyncCheckpoint == old(hashSyncCheckpoint)
      ensures ok <==> old(hashPendingCheckpoint) != NO_HASH
                      && IsBelow(old(mapBlockIndex), old(hashSyncCheckpoint), old(hashPendingCheckpoint))
                      && CanTake(luck)
    {
      ghost var s := View();
      PendingAdopts(s, luck);
      NewerIsBelow(s, s.hashPendingCheckpoint);
      if hashPendingCheckpoint != NO_HASH && hashPendingCheckpoint in mapBlockIndex {
        var valid := ValidateSyncCheckpoint(hashPendingCheckpoint);
        if !valid {
          hashPendingCheckpoint := NO_HASH;
          return false;
        }
        ok := TakeOver(hashPendingCheckpoint, luck);
        return ok;
      }
      return false;
    }

    method ProcessSyncCheckpoint(hashCheckpoint: Id, signatureOk: bool, luck: Luck) returns (ok: bool)
      requires Valid()
      modifies this
      ensures View() == if signatureOk then Message(old(View()), hashCheckpoint, luck) else old(View())
      ensures Valid()
      ensures ok <==> signatureOk && CanTake(luck)
                      && IsBelow(old(mapBlockIndex), old(hashSyncCheckpoint), hashCheckpoint)
      ensures ok ==> hashSyncCheckpoint == hashCheckpoint && hashPendingCheckpoint == NO_HASH
      ensures !ok ==> hashSyncCheckpoint == old(hashSyncCheckpoint)
    {
      ghost var s := View();
      MessageAdopts(s, hashCheckpoint, luck);
      NewerIsBelow(s, hashCheckpoint);
      if !signatureOk {
        return false;
      }
      if hashCheckpoint !in mapBlockIndex {
        hashPendingCheckpoint := hashCheckpoint;
        return false;
      }
      var valid := ValidateSyncCheckpoint(hashCheckpoint);
      if !valid {
        return false;
      }
      ok := TakeOver(hashCheckpoint, luck);
    }

    method CheckSync(hashBlock: Id, pindexPrev: Id) returns (ok: bool)
      requires Valid() && pindexPrev in mapBlockIndex
      ensures ok == Passes(View(), hashBlock, pindexPrev)
      ensures var nHeight, nSync := mapBlockIndex[pindexPrev].nHeight + 1, mapBlockIndex[hashSyncCheckpoint].nHeight;
              && (nHeight > nSync ==> (ok <==> IsAncestor(mapBlockIndex, hashSyncCheckpoint, pindexPrev)))
              && (nHeight == nSync ==> (ok <==> hashBlock == hashSyncCheckpoint))
              && (nHeight < nSync ==> (ok <==> hashBlock in mapBlockIndex))
    {
      var nHeight := mapBlockIndex[pindexPrev].nHeight + 1;
      var sync := hashSyncCheckpoint;
      if nHeight > mapBlockIndex[sync].nHeight {
        var pindex := TraceBack(pindexPrev, mapBlockIndex[sync].nHeight);
        if mapBlockIndex[pindex].nHeight < mapBlockIndex[sync].nHeight || pindex != sync {
          return false;
        }
      }
      if nHeight == mapBlockIndex[sync].nHeight && hashBlock != sync {
        return false;
      }
      if nHeight < mapBlockIndex[sync].nHeight && hashBlock !in mapBlockIndex {
        return false;
      }
      return true;
    }

    /** AcceptBlock under CheckpointsMode STRICT. */
    method AcceptBlock(hash: Id, hashPrevBlock: Id, header: Block, fate: Fate) returns (ok: bool)
      requires Valid()
      modifies this
      ensures View() == Accept(old(View()), hash, hashPrevBlock, header, fate) && Valid()
      ensures ok <==>
              && hash !in old(mapBlockIndex) && hashPrevBlock in old(mapBlockIndex)
              && Passes(old(View()), hash, hashPrevBlock) && fate.checksOk && fate.indexed && fate.indexOk
      ensures ok ==> hash in mapBlockIndex && mapBlockIndex == old(mapBlockIndex)[hash := mapBlockIndex[hash]]
    {
      if hash in mapBlockIndex {
        return false;
      }
      if hashPrevBlock !in mapBlockIndex {
        return false;
      }
      if !fate.checksOk {
        return false;
      }
      var cpSatisfies := CheckSync(hash, hashPrevBlock);
      if !cpSatisfies {
        return false;
      }
      if !fate.indexed {
        return false;
      }
      InsertOk(View(), hash, hashPrevBlock, header);
      mapBlockIndex := mapBlockIndex[hash := Placed(mapBlockIndex, header, hashPrevBlock)];
      if !fate.indexOk {
        return false;
      }
      hide WellFormed, Relate, Passes;
      PendingKeepsIndex(View(), fate.luck);
      var _ := AcceptPendingSyncCheckpoint(fate.luck);
      return true;
    }

    /** The last block of the best chain that is far enough back in time and height, or genesis. */
    method AutoSelectSyncCheckpoint(pindexBest: Id) returns (hash: Id)
      requires Valid() && pindexBest in mapBlockIndex
      ensures IsAncestor(mapBlockIndex, hash, pindexBest)
      ensures Mature(mapBlockIndex, pindexBest, hash) || mapBlockIndex[hash].nHeight == 0
      ensures var last, best := mapBlockIndex[hash], mapBlockIndex[pindexBest];
              last.nHeight == 0 || (last.nHeight + 10 <= best.nHeight && last.nTime + 1200 <= best.nTime)
      ensures forall n | 0 <= n < mapBlockIndex[pindexBest].nHeight - mapBlockIndex[hash].nHeight ::
                !Mature(mapBlockIndex, pindexBest, Back(mapBlockIndex, pindexBest, n))
    {
      var t := mapBlockIndex;
      hash := pindexBest;
      ghost var n := 0;
      while t[hash].pprev.To? && !Mature(t, pindexBest, hash)
        invariant hash in t && n <= t[pindexBest].nHeight && hash == Back(t, pindexBest, n)
        invariant forall m | 0 <= m < n :: !Mature(t, pindexBest, Back(t, pindexBest, m))
        decreases t[hash].nHeight
      {
        BackNext(t, pindexBest, n);
        hide WellFormed;
        hash := t[hash].pprev.id;
        n := n + 1;
      }
      assert WellPlaced(t, t[hash]);
      BackIsAncestor(t, pindexBest, n);
    }
  }

  /** Ten blocks and twenty minutes before the best block. */
  predicate Mature(t: Tree, best: Id, b: Id)
    requires best in t && b in t
    ensures Mature(t, best, b) <==> t[b].nHeight + 10 <= t[best].nHeight && t[b].nTime + 1200 <= t[best].nTime
  {
    t[b].nTime + nCheckpointSpan * nTargetSpacing <= t[best].nTime && t[b].nHeight + nCheckpointSpan <= t[best].nHeight
  }

  lemma EqualHeights(t: Tree, sync: Id, h: Id)
    requires WellFormed(t) && sync in t && h in t && t[h].nHeight <= t[sync].nHeight
    ensures IsAncestor(t, sync, h) ==> h == sync
  {
  }

  lemma PendingKeepsIndex(s: State, luck: Luck)
    requires Ok(s)
    ensures Pending(s, luck).mapBlockIndex == s.mapBlockIndex
  {
    hide WellFormed, Relate;
  }
}

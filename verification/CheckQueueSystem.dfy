/** One master, thread 0, and any number of workers running Loop over one shared queue (src/checkqueue.h:61-147).
    A step is one critical section, or one check run outside it; any interleaving of steps is a run. */
module CheckQueueSystem {
  import opened CheckQueue
  import opened Options
  import opened Sequences

  /** Where a thread is: not in Loop, in cond.wait (notified or not), holding a batch of which
      done checks have been run, or (a worker, when fQuit is set) returned from Loop for good. */
  datatype Thread =
    | Outside
    | Waiting(notified: bool)
    | Running(batch: seq<Check>, done: nat, fOk: bool)
    | Gone

  datatype System = System(q: Shared, threads: seq<Thread>)

  /** woken is the worker that notify_one picks, when there is one to pick. */
  datatype Action =
    | Add(checks: seq<Check>, woken: nat)
    | Enter(t: nat)
    | Wake(t: nat)
    | Execute(t: nat)
    | Commit(t: nat)

  // ---------- Totals over the threads ----------

  function Total(ts: seq<Thread>, f: Thread -> nat): nat {
    if ts == [] then 0 else f(ts[0]) + Total(ts[1..], f)
  }

  function BatchLen(th: Thread): nat {
    if th.Running? then |th.batch| else 0
  }

  function IdleCount(th: Thread): nat {
    if th.Waiting? then 1 else 0
  }

  function InsideCount(th: Thread): nat {
    if th.Waiting? || th.Running? then 1 else 0
  }

  function BatchFailures(th: Thread): nat {
    if th.Running? then Failures(th.batch) else 0
  }

  lemma {:induction false} TotalUpdate(ts: seq<Thread>, t: nat, th: Thread, f: Thread -> nat)
    requires t < |ts|
    ensures Total(ts[t := th], f) + f(ts[t]) == Total(ts, f) + f(th)
  {
    if t == 0 {
      assert ts[t := th][1..] == ts[1..];
    } else {
      assert ts[t := th][1..] == ts[1..][t - 1 := th];
      TotalUpdate(ts[1..], t - 1, th, f);
    }
  }

  lemma {:induction false} TotalSame(ts: seq<Thread>, us: seq<Thread>, f: Thread -> nat)
    requires |ts| == |us| && forall t | 0 <= t < |ts| :: f(ts[t]) == f(us[t])
    ensures Total(ts, f) == Total(us, f)
  {
    if ts != [] {
      TotalSame(ts[1..], us[1..], f);
    }
  }

  lemma {:induction false} TotalPositive(ts: seq<Thread>, f: Thread -> nat)
    requires 0 < Total(ts, f)
    ensures exists t :: 0 <= t < |ts| && 0 < f(ts[t])
  {
    if f(ts[0]) == 0 {
      TotalPositive(ts[1..], f);
      var t :| 0 <= t < |ts[1..]| && 0 < f(ts[1..][t]);
      assert 0 < f(ts[t + 1]);
    }
  }

  lemma {:induction false} TotalAtLeast(ts: seq<Thread>, t: nat, f: Thread -> nat)
    requires t < |ts|
    ensures f(ts[t]) <= Total(ts, f)
  {
    if t != 0 {
      TotalAtLeast(ts[1..], t - 1, f);
    }
  }

  // ---------- Steps ----------

  /** The counters count what they are said to count. */
  predicate Counted(s: System) {
    && s.threads != []
    && s.q.nTodo == |s.q.queue| + Total(s.threads, BatchLen)
    && s.q.nIdle == Total(s.threads, IdleCount)
    && s.q.nTotal == Total(s.threads, InsideCount)
    && forall t | 0 <= t < |s.threads| && s.threads[t].Running? ::
      s.threads[t].batch != [] && s.threads[t].done <= |s.threads[t].batch|
  }

  predicate Unnotified(th: Thread) {
    th == Waiting(false)
  }

  predicate Picks(ts: seq<Thread>, woken: nat) {
    0 < woken < |ts| && Unnotified(ts[woken])
  }

  predicate Enabled(s: System, a: Action)
    requires s.threads != []
  {
    match a
    case Add(checks, woken) =>
      // the master is the one that adds, and notify_one wakes a waiting worker if there is one
      && s.threads[0].Outside?
      && (Picks(s.threads, woken) || forall t | 0 < t < |s.threads| :: !Unnotified(s.threads[t]))
    case Enter(t) => t < |s.threads| && s.threads[t].Outside?
    case Wake(t) => t < |s.threads| && s.threads[t].Waiting?
    case Execute(t) => t < |s.threads| && s.threads[t].Running? && s.threads[t].done < |s.threads[t].batch|
    case Commit(t) => t < |s.threads| && s.threads[t].Running? && s.threads[t].done == |s.threads[t].batch|
  }

  function Notify(th: Thread): Thread {
    if Unnotified(th) then Waiting(true) else th
  }

  function NotifyWorkers(ts: seq<Thread>, signal: Signal, woken: nat): (us: seq<Thread>)
    ensures |us| == |ts|
    ensures forall t | 0 <= t < |ts| :: us[t] == ts[t] || (0 < t && us[t] == Notify(ts[t]))
  {
    match signal
    case NoWorker => ts
    case OneWorker => if Picks(ts, woken) then ts[woken := Notify(ts[woken])] else ts
    case AllWorkers => seq(|ts|, t requires 0 <= t < |ts| => if t == 0 then ts[t] else Notify(ts[t]))
  }

  function Entered(d: Decision, master: bool): Thread {
    match d
    case Leave(_) => if master then Outside else Gone
    case Sleep => Waiting(false)
    case Work(batch, fOk) => Running(batch, 0, fOk)
  }

  /** Thread t goes through the waiting loop once. */
  function SettleThread(s: System, t: nat): System
    requires t < |s.threads| && 0 < s.q.nTotal
  {
    var (q, d) := Settle(s.q, t == 0);
    System(q, s.threads[t := Entered(d, t == 0)])
  }

  /** The state of thread t just before it settles: its clean-up, or its return from waiting. */
  function BeforeSettle(s: System, a: Action): System
    requires Counted(s) && Enabled(s, a) && (a.Enter? || a.Wake? || a.Commit?)
  {
    TotalAtLeast(s.threads, a.t, IdleCount);
    TotalAtLeast(s.threads, a.t, BatchLen);
    match a
    case Enter(t) => s.(q := s.q.(nTotal := s.q.nTotal + 1))
    case Wake(t) => s.(q := s.q.(nIdle := s.q.nIdle - 1))
    case Commit(t) =>
      var q := AfterBatch(s.q, |s.threads[t].batch|, s.threads[t].fOk);
      var threads := if WakesMaster(q, t == 0) then s.threads[0 := Notify(s.threads[0])] else s.threads;
      System(q, threads)
  }

  function ExecuteOne(th: Thread): Thread
    requires th.Running? && th.done < |th.batch|
  {
    th.(done := th.done + 1, fOk := th.fOk && th.batch[th.done].passes)
  }

  function ExecuteMany(th: Thread, n: nat): Thread
    requires th.Running? && th.done + n <= |th.batch|
    decreases n
  {
    if n == 0 then th else ExecuteMany(ExecuteOne(th), n - 1)
  }

  /** Running a whole batch step by step gives the verdict RunBatch computes. */
  lemma {:induction false} ExecuteRunsBatch(th: Thread, n: nat)
    requires th.Running? && th.done + n == |th.batch|
    ensures ExecuteMany(th, n) == th.(done := |th.batch|, fOk := RunChecks(th.batch[th.done..], th.fOk))
    decreases n
  {
    if n != 0 {
      var c := th.batch[th.done];
      assert th.batch[th.done..] == [c] + th.batch[th.done + 1..];
      FailuresAdd([c], th.batch[th.done + 1..]);
      assert [c][..0] == [];
      ExecuteRunsBatch(ExecuteOne(th), n - 1);
    }
  }

  function Next(s: System, a: Action): (r: System)
    requires Counted(s) && Enabled(s, a)
    ensures Counted(r) && |r.threads| == |s.threads|
  {
    match a
    case Add(checks, woken) =>
      var threads := NotifyWorkers(s.threads, AddSignal(checks), woken);
      CountedAdd(s, checks, threads);
      System(AddChecks(s.q, checks), threads)
    case Execute(t) =>
      CountedExecute(s, t);
      s.(threads := s.threads[t := ExecuteOne(s.threads[t])])
    case _ =>
      CountedSettle(s, a);
      SettleThread(BeforeSettle(s, a), a.t)
  }

  lemma CountedAdd(s: System, checks: seq<Check>, threads: seq<Thread>)
    requires Counted(s) && |threads| == |s.threads|
    requires forall t | 0 <= t < |threads| :: threads[t] == s.threads[t] || threads[t] == Notify(s.threads[t])
    ensures Counted(System(AddChecks(s.q, checks), threads))
  {
    SameTotals(s.threads, threads);
  }

  lemma CountedExecute(s: System, t: nat)
    requires Counted(s) && Enabled(s, Execute(t))
    ensures Counted(s.(threads := s.threads[t := ExecuteOne(s.threads[t])]))
  {
    UpdateTotals(s.threads, t, ExecuteOne(s.threads[t]));
  }

  /** Clean-up leaves thread t counted nowhere but in nTotal. */
  lemma CountedBeforeSettle(s: System, a: Action)
    requires Counted(s) && Enabled(s, a) && (a.Enter? || a.Wake? || a.Commit?)
    ensures var b := BeforeSettle(s, a);
            var ts := b.threads[a.t := Gone];
            && b.q.nTodo == |b.q.queue| + Total(ts, BatchLen)
            && b.q.nIdle == Total(ts, IdleCount)
            && b.q.nTotal == Total(ts, InsideCount) + 1
  {
    var b := BeforeSettle(s, a);
    SameTotals(s.threads, b.threads);
    UpdateTotals(b.threads, a.t, Gone);
  }

  lemma SameTotals(ts: seq<Thread>, us: seq<Thread>)
    requires |ts| == |us| && forall t | 0 <= t < |ts| :: us[t] == ts[t] || us[t] == Notify(ts[t])
    ensures Total(ts, BatchLen) == Total(us, BatchLen)
    ensures Total(ts, IdleCount) == Total(us, IdleCount)
    ensures Total(ts, InsideCount) == Total(us, InsideCount)
  {
    TotalSame(ts, us, BatchLen);
    TotalSame(ts, us, IdleCount);
    TotalSame(ts, us, InsideCount);
  }

  lemma UpdateTotals(ts: seq<Thread>, t: nat, th: Thread)
    requires t < |ts|
    ensures Total(ts[t := th], BatchLen) + BatchLen(ts[t]) == Total(ts, BatchLen) + BatchLen(th)
    ensures Total(ts[t := th], IdleCount) + IdleCount(ts[t]) == Total(ts, IdleCount) + IdleCount(th)
    ensures Total(ts[t := th], InsideCount) + InsideCount(ts[t]) == Total(ts, InsideCount) + InsideCount(th)
  {
    TotalUpdate(ts, t, th, BatchLen);
    TotalUpdate(ts, t, th, IdleCount);
    TotalUpdate(ts, t, th, InsideCount);
  }

  /** Settling moves checks from the queue to the thread and nowhere else. */
  lemma SettleConserves(q: Shared, master: bool)
    requires 0 < q.nTotal
    ensures var (r, d) := Settle(q, master);
            var th := Entered(d, master);
            && r.nTodo == q.nTodo
            && Failures(r.queue) + BatchFailures(th) == Failures(q.queue)
            && |r.queue| + BatchLen(th) == |q.queue|
            && r.nIdle == q.nIdle + IdleCount(th)
            && r.nTotal + 1 == q.nTotal + InsideCount(th)
            && (th.Running? ==> th.batch != [] && th.done == 0 && th.fOk == q.fAllOk)
            && (th.Waiting? ==> !th.notified && r.queue == [])
  {
    var n := BatchSize(q);
    if q.queue != [] {
      var kept, taken := q.queue[..|q.queue| - n], q.queue[|q.queue| - n..];
      assert q.queue == kept + taken;
      FailuresAdd(kept, taken);
      FailuresReverse(taken);
    }
  }

  lemma CountedSettle(s: System, a: Action)
    requires Counted(s) && Enabled(s, a) && (a.Enter? || a.Wake? || a.Commit?)
    ensures 0 < BeforeSettle(s, a).q.nTotal
    ensures Counted(SettleThread(BeforeSettle(s, a), a.t))
  {
    var b := BeforeSettle(s, a);
    CountedBeforeSettle(s, a);
    CountedAfterSettle(b, a.t);
  }

  lemma CountedAfterSettle(b: System, t: nat)
    requires t < |b.threads|
    requires var ts := b.threads[t := Gone];
             && b.q.nTodo == |b.q.queue| + Total(ts, BatchLen)
             && b.q.nIdle == Total(ts, IdleCount)
             && b.q.nTotal == Total(ts, InsideCount) + 1
    requires forall t | 0 <= t < |b.threads| && b.threads[t].Running? ::
               b.threads[t].batch != [] && b.threads[t].done <= |b.threads[t].batch|
    ensures Counted(SettleThread(b, t))
  {
    var r := SettleThread(b, t);
    SettleConserves(b.q, t == 0);
    UpdateTotals(r.threads, t, Gone);
    assert r.threads[t := Gone] == b.threads[t := Gone];
  }

  /** What Wait returns, when this step is the one on which the master leaves Loop. */
  function Verdict(s: System, a: Action): Option<bool>
    requires Counted(s) && Enabled(s, a)
  {
    if !a.Add? && !a.Execute? && a.t == 0 && Next(s, a).threads[0].Outside? then
      CountedSettle(s, a);
      Some(Settle(BeforeSettle(s, a).q, true).1.verdict)
    else
      None
  }

  // ---------- The invariant ----------

  /** A thread's own verdict so far is right about its batch, and when it is false some check
      added since the last Wait fails. */
  predicate LocalOk(th: Thread, added: seq<Check>) {
    th.Running? && th.done <= |th.batch| ==>
      (if th.fOk then AllPass(th.batch[..th.done]) else !AllPass(added))
  }

  /** added holds the checks added since Wait last returned; retired counts the failing ones among
      those whose batches have been accounted for. */
  predicate Inv(s: System, added: seq<Check>, retired: nat) {
    && Counted(s)
    && Failures(added) == retired + Failures(s.q.queue) + Total(s.threads, BatchFailures)
    && (if s.q.fAllOk then retired == 0 else !AllPass(added))
    && s.q.nTodo <= |added|
    && (forall t | 0 <= t < |s.threads| :: LocalOk(s.threads[t], added))
    && MasterOk(s)
  }

  /** While the master waits nothing is queued, and unless it has been notified work is left. */
  predicate MasterOk(s: System)
    requires s.threads != []
  {
    && !s.threads[0].Gone?
    && (s.threads[0].Waiting? ==> s.q.queue == [])
    && (Unnotified(s.threads[0]) ==> 0 < s.q.nTodo)
  }

  function AddedBy(a: Action): seq<Check> {
    if a.Add? then a.checks else []
  }

  function RetiredBy(s: System, a: Action): nat
    requires Counted(s) && Enabled(s, a)
  {
    if a.Commit? then Failures(s.threads[a.t].batch) else 0
  }

  lemma InvAdd(s: System, a: Action, added: seq<Check>, retired: nat)
    requires Inv(s, added, retired) && Enabled(s, a) && a.Add?
    ensures Inv(Next(s, a), added + a.checks, retired)
  {
    hide Failures, Total, AllPass, LocalOk, Counted, MasterOk;
    NextAdd(s, a);
    var ts, us := s.threads, Next(s, a).threads;
    NotifiedHoldsSame(ts, us, added, a.checks);
    AddKeepsMasterOk(s, a);
    FailuresAdd(added, a.checks);
    FailuresAdd(s.q.queue, a.checks);
    MoreFail(added, a.checks);
  }

  /** Add changes the shared fields as AddChecks says; of the threads it notifies some workers. */
  lemma NextAdd(s: System, a: Action)
    requires Counted(s) && Enabled(s, a) && a.Add?
    ensures Next(s, a) == System(AddChecks(s.q, a.checks), NotifyWorkers(s.threads, AddSignal(a.checks), a.woken))
  {
    hide Failures, Total, Counted, NotifyWorkers, AddChecks;
  }

  lemma NotifiedHoldsSame(ts: seq<Thread>, us: seq<Thread>, added: seq<Check>, checks: seq<Check>)
    requires |us| == |ts| && forall t | 0 <= t < |ts| :: us[t] == ts[t] || us[t] == Notify(ts[t])
    ensures Total(us, BatchFailures) == Total(ts, BatchFailures)
    ensures (forall t | 0 <= t < |ts| :: LocalOk(ts[t], added)) ==>
            forall t | 0 <= t < |us| :: LocalOk(us[t], added + checks)
  {
    hide Failures, Total, AllPass;
    MoreFail(added, checks);
    TotalSame(ts, us, BatchFailures);
  }

  lemma MoreFail(added: seq<Check>, checks: seq<Check>)
    ensures AllPass(added + checks) ==> AllPass(added)
  {
    FailuresAdd(added, checks);
  }

  lemma AddKeepsMasterOk(s: System, a: Action)
    requires Counted(s) && Enabled(s, a) && a.Add?
    ensures MasterOk(Next(s, a))
  {
    NextAdd(s, a);
    hide Failures, Total, Counted, AddChecks;
  }

  lemma InvExecute(s: System, t: nat, added: seq<Check>, retired: nat)
    requires Inv(s, added, retired) && Enabled(s, Execute(t))
    ensures Inv(Next(s, Execute(t)), added, retired)
  {
    var th := s.threads[t];
    TotalUpdate(s.threads, t, ExecuteOne(th), BatchFailures);
    TotalAtLeast(s.threads, t, BatchFailures);
    assert th.batch == th.batch[..th.done + 1] + th.batch[th.done + 1..];
    FailuresAdd(th.batch[..th.done + 1], th.batch[th.done + 1..]);
    assert th.batch[..th.done + 1][..th.done] == th.batch[..th.done];
  }

  /** After the clean-up, thread t holds nothing: the invariant without t's batch. */
  lemma InvBeforeSettle(s: System, a: Action, added: seq<Check>, retired: nat)
    requires Inv(s, added, retired) && Enabled(s, a) && (a.Enter? || a.Wake? || a.Commit?)
    ensures WithoutThread(BeforeSettle(s, a), a.t, added, retired + RetiredBy(s, a))
  {
    var b := BeforeSettle(s, a);
    TotalSame(s.threads, b.threads, BatchFailures);
    TotalUpdate(b.threads, a.t, Gone, BatchFailures);
    if a.Commit? {
      var th := s.threads[a.t];
      assert th.batch[..th.done] == th.batch;
      assert LocalOk(th, added);
    }
  }

  /** The invariant in the middle of thread t's critical section, its old batch accounted for. */
  predicate WithoutThread(b: System, t: nat, added: seq<Check>, retired: nat) {
    && t < |b.threads|
    && Failures(added) == retired + Failures(b.q.queue) + Total(b.threads[t := Gone], BatchFailures)
    && (if b.q.fAllOk then retired == 0 else !AllPass(added))
    && b.q.nTodo <= |added|
    && (forall u | 0 <= u < |b.threads| :: LocalOk(b.threads[u], added))
    && (t != 0 ==> MasterOk(b))
  }

  lemma InvSettle(s: System, a: Action, added: seq<Check>, retired: nat)
    requires Inv(s, added, retired) && Enabled(s, a) && (a.Enter? || a.Wake? || a.Commit?)
    requires Verdict(s, a) == None
    ensures Inv(Next(s, a), added, retired + RetiredBy(s, a))
  {
    var b := BeforeSettle(s, a);
    CountedSettle(s, a);
    InvBeforeSettle(s, a, added, retired);
    InvAfterSettle(b, a.t, added, retired + RetiredBy(s, a));
  }

  lemma InvAfterSettle(b: System, t: nat, added: seq<Check>, retired: nat)
    requires WithoutThread(b, t, added, retired) && 0 < b.q.nTotal && Counted(SettleThread(b, t))
    requires t == 0 ==> !SettleThread(b, t).threads[0].Outside?
    ensures Inv(SettleThread(b, t), added, retired)
  {
    var r := SettleThread(b, t);
    SettleConserves(b.q, t == 0);
    TotalUpdate(r.threads, t, Gone, BatchFailures);
    assert r.threads[t := Gone] == b.threads[t := Gone];
    var th := r.threads[t];
    assert LocalOk(th, added) by {
      if th.Running? {
        assert th.batch[..0] == [];
      }
    }
    assert r.q.fAllOk == b.q.fAllOk;
  }

  /** When Wait returns nothing is queued or held, and its verdict is right; the queue starts anew. */
  lemma InvReturn(s: System, a: Action, added: seq<Check>, retired: nat)
    requires Inv(s, added, retired) && Enabled(s, a) && Verdict(s, a).Some?
    ensures Verdict(s, a).value == AllPass(added)
    ensures Inv(Next(s, a), [], 0)
    ensures Next(s, a).q.queue == [] && Total(Next(s, a).threads, BatchLen) == 0
  {
    var b := BeforeSettle(s, a);
    var r := Next(s, a);
    CountedSettle(s, a);
    InvBeforeSettle(s, a, added, retired);
    NothingHeld(r);
    TotalUpdate(r.threads, 0, Gone, BatchFailures);
    assert r.threads[0 := Gone] == b.threads[0 := Gone];
  }

  lemma NothingHeld(s: System)
    requires Counted(s) && Total(s.threads, BatchLen) == 0
    ensures Total(s.threads, BatchFailures) == 0
    ensures forall t | 0 <= t < |s.threads| :: !s.threads[t].Running?
  {
    forall t | 0 <= t < |s.threads|
      ensures !s.threads[t].Running?
    {
      TotalAtLeast(s.threads, t, BatchLen);
    }
    if 0 < Total(s.threads, BatchFailures) {
      TotalPositive(s.threads, BatchFailures);
    }
  }

  // ---------- The checks themselves ----------

  function Holding(th: Thread): multiset<Check> {
    if th.Running? then multiset(th.batch) else multiset{}
  }

  function Held(ts: seq<Thread>): multiset<Check> {
    if ts == [] then multiset{} else Holding(ts[0]) + Held(ts[1..])
  }

  /** Every check added since the last Wait is queued, held by a thread, or in done: it has been run, or
      skipped because another had failed. */
  predicate Accounted(s: System, added: seq<Check>, done: multiset<Check>) {
    multiset(added) == multiset(s.q.queue) + Held(s.threads) + done
  }

  function DoneBy(s: System, a: Action): multiset<Check>
    requires Counted(s) && Enabled(s, a)
  {
    if a.Commit? then multiset(s.threads[a.t].batch) else multiset{}
  }

  lemma {:induction false} HeldUpdate(ts: seq<Thread>, t: nat, th: Thread)
    requires t < |ts|
    ensures Held(ts[t := th]) + Holding(ts[t]) == Held(ts) + Holding(th)
  {
    hide Holding;
    if t == 0 {
      assert ts[t := th][1..] == ts[1..];
    } else {
      assert ts[t := th][1..] == ts[1..][t - 1 := th];
      HeldUpdate(ts[1..], t - 1, th);
      Front(Holding(ts[0]), Held(ts[1..][t - 1 := th]), Holding(ts[t]), Held(ts[1..]), Holding(th));
    }
  }

  lemma Front(x: multiset<Check>, a: multiset<Check>, b: multiset<Check>, c: multiset<Check>, d: multiset<Check>)
    requires a + b == c + d
    ensures x + a + b == x + c + d
  {
    assert x + a + b == x + (a + b) && x + c + d == x + (c + d);
  }

  lemma {:induction false} HeldSame(ts: seq<Thread>, us: seq<Thread>)
    requires |ts| == |us| && forall t | 0 <= t < |ts| :: Holding(ts[t]) == Holding(us[t])
    ensures Held(ts) == Held(us)
  {
    if ts != [] {
      HeldSame(ts[1..], us[1..]);
    }
  }

  lemma {:induction false} HeldNone(ts: seq<Thread>)
    requires forall t | 0 <= t < |ts| :: !ts[t].Running?
    ensures Held(ts) == multiset{}
  {
    if ts != [] {
      HeldNone(ts[1..]);
    }
  }

  lemma {:induction false} SameChecks(s: seq<Check>)
    ensures multiset(Reverse(s)) == multiset(s)
  {
    if s == [] {
      assert Reverse(s) == [];
    } else {
      var last := s[|s| - 1];
      SameChecks(s[..|s| - 1]);
      assert Reverse(s) == [last] + Reverse(s[..|s| - 1]);
      assert s == s[..|s| - 1] + [last];
    }
  }

  /** The waiting loop takes the very checks that leave the queue. */
  lemma SettleTakes(q: Shared, master: bool)
    requires 0 < q.nTotal
    ensures var (r, d) := Settle(q, master);
            multiset(q.queue) == multiset(r.queue) + Holding(Entered(d, master))
  {
    hide BatchSize, Reverse;
    if q.queue != [] {
      TakenFrom(q.queue, BatchSize(q));
    }
  }

  lemma TakenFrom(queue: seq<Check>, n: nat)
    requires n <= |queue|
    ensures multiset(queue) == multiset(queue[..|queue| - n]) + multiset(Reverse(queue[|queue| - n..]))
  {
    hide Reverse;
    SameChecks(queue[|queue| - n..]);
    assert queue == queue[..|queue| - n] + queue[|queue| - n..];
  }

  lemma StepAccounts(s: System, a: Action, added: seq<Check>, done: multiset<Check>)
    requires Counted(s) && Enabled(s, a) && Accounted(s, added, done)
    ensures Accounted(Next(s, a), added + AddedBy(a), done + DoneBy(s, a))
  {
    hide Held, Counted, Enabled, Settle, SettleThread, BeforeSettle;
    if a.Add? {
      NextAdd(s, a);
      HeldSame(s.threads, Next(s, a).threads);
      hide NotifyWorkers;
    } else if a.Execute? {
      ExecuteHolds(s, a);
    } else {
      NextSettles(s, a);
      CleanUpHolds(s, a);
      SettleAccounts(BeforeSettle(s, a), a.t);
    }
  }

  lemma ExecuteHolds(s: System, a: Action)
    requires Counted(s) && Enabled(s, a) && a.Execute?
    ensures Next(s, a).q == s.q && Held(Next(s, a).threads) == Held(s.threads)
  {
    var th := s.threads[a.t];
    HeldUpdate(s.threads, a.t, ExecuteOne(th));
    hide Held, Counted;
    Cancels(Held(Next(s, a).threads), Held(s.threads), Holding(th));
  }

  lemma Regroup(q: multiset<Check>, held: multiset<Check>, given: multiset<Check>,
                q0: multiset<Check>, held0: multiset<Check>, taken: multiset<Check>)
    requires q0 == q + taken && held + given == held0 + taken
    ensures q + held + given == q0 + held0
  {
    assert q + held + given == q + (held + given);
    assert q + (held0 + taken) == q + taken + held0;
  }

  lemma Cancels(x: multiset<Check>, y: multiset<Check>, z: multiset<Check>)
    requires x + z == y + z
    ensures x == y
  {
    forall c
      ensures x[c] == y[c]
    {
      assert (x + z)[c] == (y + z)[c];
    }
  }

  lemma CleanUpHolds(s: System, a: Action)
    requires Counted(s) && Enabled(s, a) && (a.Enter? || a.Wake? || a.Commit?)
    ensures var b := BeforeSettle(s, a);
            && a.t < |b.threads| && b.q.queue == s.q.queue
            && Held(b.threads) == Held(s.threads) && Holding(b.threads[a.t]) == DoneBy(s, a)
  {
    var b := BeforeSettle(s, a);
    if b.threads != s.threads {
      HeldUpdate(s.threads, 0, Notify(s.threads[0]));
    }
    hide Held, Total;
  }

  /** Thread t's old batch is given up, and what it takes leaves the queue. */
  lemma SettleAccounts(b: System, t: nat)
    requires t < |b.threads| && 0 < b.q.nTotal
    ensures var r := SettleThread(b, t);
            multiset(r.q.queue) + Held(r.threads) + Holding(b.threads[t]) == multiset(b.q.queue) + Held(b.threads)
  {
    var r := SettleThread(b, t);
    SettleTakes(b.q, t == 0);
    HeldUpdate(b.threads, t, r.threads[t]);
    hide Held, Settle;
    Regroup(multiset(r.q.queue), Held(r.threads), Holding(b.threads[t]), multiset(b.q.queue), Held(b.threads),
      Holding(r.threads[t]));
  }

  // ---------- Runs ----------

  predicate Initial(s: System) {
    && s.threads != []
    && (forall t | 0 <= t < |s.threads| :: s.threads[t] == Outside)
    && s.q == Shared([], 0, 0, true, 0, s.q.fQuit, s.q.nBatchSize)
  }

  /** A run: each action is enabled in the state the ones before it lead to. */
  predicate IsRun(s: System, actions: seq<Action>)
    requires Counted(s)
    decreases |actions|
  {
    actions == [] || (Enabled(s, actions[0]) && IsRun(Next(s, actions[0]), actions[1..]))
  }

  function Final(s: System, actions: seq<Action>): (r: System)
    requires Counted(s) && IsRun(s, actions)
    ensures Counted(r)
    decreases |actions|
  {
    if actions == [] then s else Final(Next(s, actions[0]), actions[1..])
  }

  /** The checks added since Wait last returned, at the end of a run before which added had been. */
  function Pending(s: System, actions: seq<Action>, added: seq<Check>): seq<Check>
    requires Counted(s) && IsRun(s, actions)
    decreases |actions|
  {
    if actions == [] then added
    else
      var a := actions[0];
      Pending(Next(s, a), actions[1..], if Verdict(s, a).Some? then [] else added + AddedBy(a))
  }

  /** Every Wait along the run says whether all checks added since the one before pass; those checks and
      no others have been run or skipped by then, and none of them is queued or held. */
  ghost predicate VerdictsRight(s: System, actions: seq<Action>, added: seq<Check>, done: multiset<Check>)
    requires Counted(s) && IsRun(s, actions)
    decreases |actions|
  {
    actions == [] ||
    var a := actions[0];
    var r := Next(s, a);
    match Verdict(s, a)
    case Some(verdict) =>
      && (verdict <==> forall c | c in added :: c.passes)
      && done + DoneBy(s, a) == multiset(added)
      && r.q.queue == [] && Total(r.threads, BatchLen) == 0
      && VerdictsRight(r, actions[1..], [], multiset{})
    case None => VerdictsRight(r, actions[1..], added + AddedBy(a), done + DoneBy(s, a))
  }

  lemma InitialCounted(s: System)
    requires Initial(s)
    ensures Counted(s) && Inv(s, [], 0) && Accounted(s, [], multiset{})
  {
    AllOutside(s.threads);
    HeldNone(s.threads);
  }

  lemma {:induction false} AllOutside(ts: seq<Thread>)
    requires forall t | 0 <= t < |ts| :: ts[t] == Outside
    ensures Total(ts, BatchLen) == Total(ts, IdleCount) == Total(ts, InsideCount) == Total(ts, BatchFailures) == 0
  {
    if ts != [] {
      AllOutside(ts[1..]);
    }
  }

  /** What a return of Wait is right about. */
  lemma ReturnRight(s: System, a: Action, added: seq<Check>, retired: nat, done: multiset<Check>)
    requires Inv(s, added, retired) && Accounted(s, added, done) && Enabled(s, a) && Verdict(s, a).Some?
    ensures Verdict(s, a).value <==> forall c | c in added :: c.passes
    ensures done + DoneBy(s, a) == multiset(added)
    ensures Inv(Next(s, a), [], 0) && Accounted(Next(s, a), [], multiset{})
    ensures Next(s, a).q.queue == [] && Total(Next(s, a).threads, BatchLen) == 0
  {
    var r := Next(s, a);
    InvReturn(s, a, added, retired);
    AllPassMeans(added);
    StepAccounts(s, a, added, done);
    ReturnAddsNothing(s, a, added);
    hide *;
    AtRest(r);
  }

  lemma ReturnAddsNothing(s: System, a: Action, added: seq<Check>)
    requires Counted(s) && Enabled(s, a) && !a.Add?
    ensures added + AddedBy(a) == added
  {
    hide Counted, Enabled;
  }

  /** With nothing queued or held, all the checks are done. */
  lemma AtRest(r: System)
    requires Counted(r) && r.q.queue == [] && Total(r.threads, BatchLen) == 0
    ensures Accounted(r, [], multiset{})
    ensures forall added, done :: Accounted(r, added, done) ==> done == multiset(added)
  {
    NothingHeld(r);
    HeldNone(r.threads);
    hide Held, Counted, Total;
  }

  lemma {:induction false} RunKeepsInv(s: System, actions: seq<Action>, added: seq<Check>, retired: nat,
                                       done: multiset<Check>)
    returns (left: nat)
    requires Inv(s, added, retired) && Accounted(s, added, done) && IsRun(s, actions)
    ensures VerdictsRight(s, actions, added, done)
    ensures Inv(Final(s, actions), Pending(s, actions, added), left)
    decreases |actions|
  {
    if actions == [] {
      left := retired;
    } else {
      hide Accounted, Counted, Enabled, Failures, Total, AllPass, LocalOk, MasterOk, DoneBy, RetiredBy;
      var a := actions[0];
      if Verdict(s, a).Some? {
        ReturnRight(s, a, added, retired, done);
        left := RunKeepsInv(Next(s, a), actions[1..], [], 0, multiset{});
      } else {
        InvStep(s, a, added, retired);
        StepAccounts(s, a, added, done);
        left := RunKeepsInv(Next(s, a), actions[1..], added + AddedBy(a), retired + RetiredBy(s, a),
          done + DoneBy(s, a));
      }
    }
  }

  /** Any step but a return of Wait keeps the invariant. */
  lemma InvStep(s: System, a: Action, added: seq<Check>, retired: nat)
    requires Inv(s, added, retired) && Enabled(s, a) && Verdict(s, a).None?
    ensures Inv(Next(s, a), added + AddedBy(a), retired + RetiredBy(s, a))
  {
    hide Inv, Counted, Enabled, Next;
    match a {
      case Add(_, _) => InvAdd(s, a, added, retired);
      case Execute(t) =>
        InvExecute(s, t, added, retired);
        assert added + AddedBy(a) == added;
      case _ =>
        InvSettle(s, a, added, retired);
        assert added + AddedBy(a) == added;
    }
  }

  /** Safety, under every interleaving of any number of workers with the master. */
  lemma WaitIsConjunction(s: System, actions: seq<Action>)
    requires Initial(s)
    ensures Counted(s)
    ensures IsRun(s, actions) ==> VerdictsRight(s, actions, [], multiset{})
  {
    InitialCounted(s);
    if IsRun(s, actions) {
      var _ := RunKeepsInv(s, actions, [], 0, multiset{});
    }
  }

  // ---------- Workers are woken ----------

  /** Two checks or more wake every waiting worker, one check wakes one if there is one, none wakes none;
      a thread that is not woken, the master among them, stays as it is. */
  lemma AddWakes(s: System, a: Action)
    requires Counted(s) && Enabled(s, a) && a.Add?
    ensures var ts, us := s.threads, Next(s, a).threads;
            && |us| == |ts|
            && (|a.checks| > 1 ==> us[0] == ts[0] && forall t | 0 < t < |ts| ::
                  us[t] == if ts[t] == Waiting(false) then Waiting(true) else ts[t])
            && (|a.checks| == 1 && (exists t :: 0 < t < |ts| && ts[t] == Waiting(false)) ==>
                  0 < a.woken < |ts| && ts[a.woken] == Waiting(false) && us == ts[a.woken := Waiting(true)])
            && (|a.checks| == 1 && (forall t | 0 < t < |ts| :: ts[t] != Waiting(false)) ==> us == ts)
            && (a.checks == [] ==> us == ts)
  {
    NextAdd(s, a);
    hide Failures, Total, Counted, AddChecks;
    if |a.checks| == 1 {
      assert forall t | 0 < t < |s.threads| :: s.threads[t] == Waiting(false) <==> Unnotified(s.threads[t]);
    }
  }

  predicate SomeSleeps(ts: seq<Thread>) {
    exists t :: 0 < t < |ts| && ts[t] == Waiting(false)
  }

  predicate SomeWorks(ts: seq<Thread>) {
    exists t :: 0 < t < |ts| && (ts[t] == Waiting(true) || ts[t].Running?)
  }

  /** While checks are queued, no worker sleeps on unless another is on its way to them. */
  predicate NoneLost(s: System) {
    s.q.queue != [] && SomeSleeps(s.threads) ==> SomeWorks(s.threads)
  }

  lemma AddLosesNone(s: System, a: Action)
    requires Counted(s) && NoneLost(s) && Enabled(s, a) && a.Add?
    ensures NoneLost(Next(s, a))
  {
    AddWakes(s, a);
    NextAdd(s, a);
    hide Counted, Enabled, NotifyWorkers;
    var ts, us := s.threads, Next(s, a).threads;
    if |a.checks| == 1 && (exists t :: 0 < t < |ts| && ts[t] == Waiting(false)) {
      assert us[a.woken] == Waiting(true);
    }
  }

  lemma StepLosesNone(s: System, a: Action)
    requires Counted(s) && NoneLost(s) && Enabled(s, a)
    ensures NoneLost(Next(s, a))
  {
    if a.Add? {
      AddLosesNone(s, a);
    } else if a.Execute? {
      var ts, us := s.threads, Next(s, a).threads;
      assert us[a.t].Running? && forall t | 0 <= t < |ts| && t != a.t :: us[t] == ts[t];
      hide Counted, Enabled, Next;
      if SomeSleeps(us) {
        var t :| 0 < t < |us| && us[t] == Waiting(false);
        assert ts[t] == Waiting(false);
        var u :| 0 < u < |ts| && (s.q.queue == [] || ts[u] == Waiting(true) || ts[u].Running?);
        assert s.q.queue != [] ==> us[u] == Waiting(true) || us[u].Running?;
      }
    } else {
      NextSettles(s, a);
      SettleLosesNone(s, a);
    }
  }

  /** A worker that settles takes a batch unless the queue is empty; the master only takes from it. */
  lemma SettleLosesNone(s: System, a: Action)
    requires Counted(s) && NoneLost(s) && Enabled(s, a) && (a.Enter? || a.Wake? || a.Commit?)
    requires 0 < BeforeSettle(s, a).q.nTotal && a.t < |BeforeSettle(s, a).threads|
    ensures NoneLost(SettleThread(BeforeSettle(s, a), a.t))
  {
    var b := BeforeSettle(s, a);
    var r := SettleThread(b, a.t);
    var ts, us := s.threads, r.threads;
    SettleConserves(b.q, a.t == 0);
    assert b.q.queue == s.q.queue && |us| == |ts|;
    assert forall t | 0 < t < |ts| && t != a.t :: us[t] == ts[t];
    assert r.q.queue != [] ==> s.q.queue != [];
    assert a.t != 0 && r.q.queue != [] ==> us[a.t].Running?;
    hide Counted, Enabled, BeforeSettle, SettleThread, Failures, Total;
    if r.q.queue != [] && SomeSleeps(us) && a.t == 0 {
      var t :| 0 < t < |us| && us[t] == Waiting(false);
      assert ts[t] == Waiting(false);
      var u :| 0 < u < |ts| && (ts[u] == Waiting(true) || ts[u].Running?);
      assert us[u] == ts[u];
    }
  }

  lemma {:induction false} RunLosesNone(s: System, actions: seq<Action>)
    requires Counted(s) && NoneLost(s) && IsRun(s, actions)
    ensures NoneLost(Final(s, actions))
    decreases |actions|
  {
    if actions != [] {
      hide NoneLost, Counted, Enabled, Next;
      StepLosesNone(s, actions[0]);
      RunLosesNone(Next(s, actions[0]), actions[1..]);
    }
  }

  /** No wake-up is lost: in every reachable state with checks queued and a worker asleep that nobody has
      notified, another worker has been notified or is running a batch. */
  lemma NoLostWakeUp(s: System, actions: seq<Action>)
    requires Initial(s) && Counted(s) && IsRun(s, actions)
    ensures var r := Final(s, actions);
            r.q.queue != [] && (exists t :: 0 < t < |r.threads| && r.threads[t] == Waiting(false)) ==>
              exists t :: 0 < t < |r.threads| && (r.threads[t] == Waiting(true) || r.threads[t].Running?)
  {
    RunLosesNone(s, actions);
  }

  // ---------- Progress ----------

  /** A master waiting un-notified always has a worker that still holds a batch; in every state
      in which the master is inside Loop, some step other than a spurious wake-up is possible. */
  lemma MasterNeverStuck(s: System, actions: seq<Action>)
    requires Initial(s) && Counted(s) && IsRun(s, actions)
    ensures var r := Final(s, actions);
            Unnotified(r.threads[0]) ==>
              0 < r.q.nTodo && exists t :: 0 < t < |r.threads| && r.threads[t].Running?
    ensures var r := Final(s, actions);
            !r.threads[0].Outside? ==> exists a :: Enabled(r, a) && !a.Add? && !Spurious(r, a)
  {
    InitialCounted(s);
    var left := RunKeepsInv(s, actions, [], 0, multiset{});
    SomeStep(Final(s, actions));
  }

  /** Waking a thread that nobody notified. */
  predicate Spurious(s: System, a: Action)
    requires s.threads != []
  {
    a.Wake? && a.t < |s.threads| && Unnotified(s.threads[a.t])
  }

  lemma SomeStep(s: System)
    requires Counted(s) && MasterOk(s)
    ensures Unnotified(s.threads[0]) ==> exists t :: 0 < t < |s.threads| && s.threads[t].Running?
    ensures !s.threads[0].Outside? ==> exists a :: Enabled(s, a) && !a.Add? && !Spurious(s, a)
  {
    if Unnotified(s.threads[0]) {
      TotalPositive(s.threads, BatchLen);
      var t :| 0 <= t < |s.threads| && 0 < BatchLen(s.threads[t]);
      RunnerSteps(s, t);
    } else if s.threads[0].Waiting? {
      assert Enabled(s, Wake(0));
    } else if s.threads[0].Running? {
      RunnerSteps(s, 0);
    }
  }

  lemma RunnerSteps(s: System, t: nat)
    requires Counted(s) && t < |s.threads| && s.threads[t].Running?
    ensures Enabled(s, Execute(t)) || Enabled(s, Commit(t))
  {
  }

  /** Work left for a thread: steps it can still take on its own account. */
  function Weight(th: Thread): nat {
    match th
    case Outside => 1
    case Waiting(notified) => if notified then 1 else 0
    case Running(batch, done, _) => (if done < |batch| then |batch| - done else 0) + 2
    case Gone => 0
  }

  /** Bounds the number of steps before Wait returns. */
  function Potential(s: System): nat {
    3 * |s.q.queue| + Total(s.threads, Weight)
  }

  /** Every step that is not an Add, a spurious wake-up or the return of Wait uses up potential. */
  lemma StepUsesPotential(s: System, a: Action)
    requires Counted(s) && Enabled(s, a) && !a.Add? && !Spurious(s, a) && Verdict(s, a).None?
    ensures Potential(Next(s, a)) < Potential(s)
  {
    if a.Execute? {
      TotalUpdate(s.threads, a.t, ExecuteOne(s.threads[a.t]), Weight);
    } else {
      NextSettles(s, a);
      NotifyingCosts(s, a);
      hide Total, Counted, Enabled, BeforeSettle, SettleThread, Weight, Verdict, Next;
      SettleUsesPotential(BeforeSettle(s, a), a.t);
    }
  }

  lemma NextSettles(s: System, a: Action)
    requires Counted(s) && Enabled(s, a) && (a.Enter? || a.Wake? || a.Commit?)
    ensures 0 < BeforeSettle(s, a).q.nTotal && a.t < |BeforeSettle(s, a).threads|
    ensures Next(s, a) == SettleThread(BeforeSettle(s, a), a.t)
    ensures Verdict(s, a).None? && a.t == 0 ==> !Next(s, a).threads[0].Outside?
  {
    CountedSettle(s, a);
    hide Total, Counted, Settle, SettleThread;
  }

  /** Clean-up leaves the queue alone and notifies the master at most, which a commit can pay for. */
  lemma NotifyingCosts(s: System, a: Action)
    requires Counted(s) && Enabled(s, a) && (a.Enter? || a.Wake? || a.Commit?) && !Spurious(s, a)
    ensures var b := BeforeSettle(s, a);
            && a.t < |b.threads| && b.q.queue == s.q.queue
            && Total(b.threads, Weight) < Total(s.threads, Weight) + Weight(b.threads[a.t])
  {
    var b := BeforeSettle(s, a);
    if b.threads != s.threads {
      TotalUpdate(s.threads, 0, Notify(s.threads[0]), Weight);
    }
    hide Total;
  }

  lemma SettleUsesPotential(b: System, t: nat)
    requires t < |b.threads| && 0 < b.q.nTotal
    requires t == 0 ==> !SettleThread(b, t).threads[0].Outside?
    ensures Potential(SettleThread(b, t)) + Weight(b.threads[t]) <= Potential(b)
  {
    var r := SettleThread(b, t);
    SettleConserves(b.q, t == 0);
    TotalUpdate(b.threads, t, r.threads[t], Weight);
    hide Total, Settle, Failures;
  }

  /** The master has not returned from Wait and nothing is added or woken without cause. */
  predicate QuietRun(s: System, actions: seq<Action>)
    requires Counted(s) && IsRun(s, actions)
    decreases |actions|
  {
    actions == [] ||
    var a := actions[0];
    !a.Add? && !Spurious(s, a) && Verdict(s, a).None? && QuietRun(Next(s, a), actions[1..])
  }

  /** Termination: a run on which Wait has not returned yet is no longer than the potential. */
  lemma {:induction false} WaitReturnsInTime(s: System, actions: seq<Action>)
    requires Counted(s) && IsRun(s, actions) && QuietRun(s, actions)
    ensures |actions| + Potential(Final(s, actions)) <= Potential(s)
    decreases |actions|
  {
    if actions != [] {
      StepUsesPotential(s, actions[0]);
      WaitReturnsInTime(Next(s, actions[0]), actions[1..]);
    }
  }

  // ---------- Sessions ----------

  /** The three assertions of the controller's constructor hold, while the master is outside Loop,
      exactly when every check added since the last Wait has been run and passes; so a later session
      may start whenever nothing has been added since. */
  lemma ReadyExactly(s: System, actions: seq<Action>)
    requires Initial(s) && Counted(s) && IsRun(s, actions)
    requires Final(s, actions).threads[0].Outside?
    ensures var r := Final(s, actions);
            ReadyForSession(r.q) <==>
              r.q.queue == [] && Total(r.threads, BatchLen) == 0 && AllPass(Pending(s, actions, []))
    ensures Pending(s, actions, []) == [] ==> ReadyForSession(Final(s, actions).q)
  {
    InitialCounted(s);
    var left := RunKeepsInv(s, actions, [], 0, multiset{});
    var r := Final(s, actions);
    IdleAndRunning(r.threads);
    RunningHoldChecks(r);
    if Total(r.threads, BatchLen) == 0 {
      NothingHeld(r);
    }
  }

  function RunningCount(th: Thread): nat {
    if th.Running? then 1 else 0
  }

  lemma {:induction false} IdleAndRunning(ts: seq<Thread>)
    ensures Total(ts, InsideCount) == Total(ts, IdleCount) + Total(ts, RunningCount)
  {
    if ts != [] {
      IdleAndRunning(ts[1..]);
    }
  }

  lemma RunningHoldChecks(s: System)
    requires Counted(s)
    ensures Total(s.threads, RunningCount) == 0 <==> Total(s.threads, BatchLen) == 0
  {
    if 0 < Total(s.threads, RunningCount) {
      TotalPositive(s.threads, RunningCount);
      var t :| 0 <= t < |s.threads| && 0 < RunningCount(s.threads[t]);
      TotalAtLeast(s.threads, t, BatchLen);
    }
    if 0 < Total(s.threads, BatchLen) {
      TotalPositive(s.threads, BatchLen);
      var t :| 0 <= t < |s.threads| && 0 < BatchLen(s.threads[t]);
      TotalAtLeast(s.threads, t, RunningCount);
    }
  }
}

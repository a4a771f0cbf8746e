/** The shared verification queue (src/checkqueue.h): the fields protected by its mutex,
    the three critical sections that change them, and the class that does so in place. */
module CheckQueue {
  import opened Arithmetic
  import opened Sequences

  /** A check is known by a number; passes is what its operator() returns when it is run. */
  datatype Check = Check(id: nat, passes: bool)

  /** The fields guarded by the mutex. fQuit and nBatchSize are set once, by the constructor. */
  datatype Shared = Shared(
    queue: seq<Check>, nIdle: nat, nTotal: nat, fAllOk: bool, nTodo: nat, fQuit: bool, nBatchSize: nat)

  /** What one pass through the waiting loop decides: leave Loop with a verdict, wait on the
      condition variable, or go and run a batch, having noted whether work is needed at all. */
  datatype Decision = Leave(verdict: bool) | Sleep | Work(batch: seq<Check>, fOk: bool)

  /** Which worker threads Add signals. */
  datatype Signal = NoWorker | OneWorker | AllWorkers

  /** How many of the checks fail. */
  function Failures(checks: seq<Check>): nat {
    if checks == [] then 0 else Failures(checks[..|checks| - 1]) + if checks[|checks| - 1].passes then 0 else 1
  }

  predicate AllPass(checks: seq<Check>)
    ensures AllPass(checks) <==> Failures(checks) == 0
  {
    checks == [] || (AllPass(checks[..|checks| - 1]) && checks[|checks| - 1].passes)
  }

  lemma {:induction false} AllPassMeans(checks: seq<Check>)
    ensures AllPass(checks) <==> forall i | 0 <= i < |checks| :: checks[i].passes
  {
    if checks != [] {
      AllPassMeans(checks[..|checks| - 1]);
    }
  }

  lemma {:induction false} FailuresAdd(a: seq<Check>, b: seq<Check>)
    ensures Failures(a + b) == Failures(a) + Failures(b)
  {
    if b == [] {
      assert a + b == a;
    } else {
      FailuresAdd(a, b[..|b| - 1]);
      assert (a + b)[..|a + b| - 1] == a + b[..|b| - 1];
    }
  }

  lemma ShareBounds(length: nat, d: nat, limit: nat)
    requires d > 0
    ensures var n := Max(1, Min(limit, length / d));
            && 1 <= n && (length > 0 ==> n <= length) && (limit > 0 ==> n <= limit)
            && (1 < n ==> n * d <= length) && (limit <= n || length < (n + 1) * d)
  {
    var q := length / d;
    assert length == d * q + length % d;
    LessTimes(Max(1, Min(limit, q)), q, d);
    assert (q + 1) * d == d * q + d;
    if q > 0 {
      Scale(d, q);
      LessTimes(1, d, q);
    }
  }

  lemma LessTimes(a: nat, b: nat, d: nat)
    ensures a <= b ==> a * d <= b * d
  {
    if a <= b {
      assert b * d == a * d + (b - a) * d;
    }
  }

  /** The number of checks the next batch takes. */
  function BatchSize(q: Shared): (n: nat)
    ensures 1 <= n
    ensures q.queue != [] ==> n <= |q.queue|
    ensures q.nBatchSize != 0 ==> n <= q.nBatchSize
    ensures 1 < n ==> n * (q.nTotal + q.nIdle + 1) <= |q.queue|
    ensures q.nBatchSize <= n || |q.queue| < (n + 1) * (q.nTotal + q.nIdle + 1)
  {
    ShareBounds(|q.queue|, q.nTotal + q.nIdle + 1, q.nBatchSize);
    Max(1, Min(q.nBatchSize, |q.queue| / (q.nTotal + q.nIdle + 1)))
  }

  lemma {:induction false} FailuresReverse(s: seq<Check>)
    ensures Failures(Reverse(s)) == Failures(s)
  {
    if s != [] {
      var last := s[|s| - 1];
      FailuresReverse(s[..|s| - 1]);
      assert Reverse(s) == [last] + Reverse(s[..|s| - 1]);
      FailuresAdd([last], Reverse(s[..|s| - 1]));
      assert [last][..0] == [];
    }
  }

  /** Accounting for the batch a thread has just run (nNow > 0). */
  function AfterBatch(q: Shared, nNow: nat, fOk: bool): Shared
    requires nNow <= q.nTodo
  {
    q.(fAllOk := q.fAllOk && fOk, nTodo := q.nTodo - nNow)
  }

  /** Whether that accounting signals the master. */
  predicate WakesMaster(q: Shared, fMaster: bool) {
    q.nTodo == 0 && !fMaster
  }

  /** One pass through the waiting loop. */
  function Settle(q: Shared, fMaster: bool): (Shared, Decision)
    requires 0 < q.nTotal
  {
    if q.queue == [] then
      if (fMaster || q.fQuit) && q.nTodo == 0 then
        (q.(nTotal := q.nTotal - 1, fAllOk := fMaster || q.fAllOk), Leave(q.fAllOk))
      else
        (q.(nIdle := q.nIdle + 1), Sleep)
    else
      var n := BatchSize(q);
      (q.(queue := q.queue[..|q.queue| - n]), Work(Reverse(q.queue[|q.queue| - n..]), q.fAllOk))
  }

  function AddChecks(q: Shared, checks: seq<Check>): Shared {
    q.(queue := q.queue + checks, nTodo := q.nTodo + |checks|)
  }

  function AddSignal(checks: seq<Check>): Signal {
    if |checks| == 0 then NoWorker else if |checks| == 1 then OneWorker else AllWorkers
  }

  /** fOk after the first done checks of a batch, starting from fOk. */
  function RunChecks(checks: seq<Check>, fOk: bool): bool {
    fOk && AllPass(checks)
  }

  /** The state the queue's controller expects of a queue it is handed. */
  predicate ReadyForSession(q: Shared) {
    q.nTotal == q.nIdle && q.nTodo == 0 && q.fAllOk
  }

  class CheckQueue {
    var queue: seq<Check>
    var nIdle: nat
    var nTotal: nat
    var fAllOk: bool
    var nTodo: nat
    const fQuit: bool
    const nBatchSize: nat

    function Fields(): Shared
      reads this
    {
      Shared(queue, nIdle, nTotal, fAllOk, nTodo, fQuit, nBatchSize)
    }

    constructor (nBatchSizeIn: nat)
      ensures Fields() == Shared([], 0, 0, true, 0, false, nBatchSizeIn)
      ensures ReadyForSession(Fields())
    {
      queue, nIdle, nTotal, fAllOk, nTodo := [], 0, 0, true, 0;
      fQuit, nBatchSize := false, nBatchSizeIn;
    }

    /** The critical section of Add. */
    method Add(vChecks: seq<Check>) returns (signal: Signal)
      modifies this
      ensures Fields() == AddChecks(old(Fields()), vChecks) && queue == old(queue) + vChecks
      ensures signal == AddSignal(vChecks)
      ensures (signal == AllWorkers <==> |vChecks| > 1) && (signal == OneWorker <==> |vChecks| == 1)
    {
      var i := 0;
      while i < |vChecks|
        invariant i <= |vChecks|
        invariant Fields() == old(Fields()).(queue := old(queue) + vChecks[..i])
      {
        queue := queue + [vChecks[i]];
        i := i + 1;
      }
      assert vChecks[..i] == vChecks;
      nTodo := nTodo + |vChecks|;
      signal := if |vChecks| == 1 then OneWorker else if |vChecks| > 1 then AllWorkers else NoWorker;
    }

    /** The clean-up of the previous loop run; nNow is 0 on the first. */
    method CleanUp(fMaster: bool, nNow: nat, fOk: bool) returns (notifyMaster: bool)
      requires nNow <= nTodo
      modifies this
      ensures nNow != 0 ==>
        Fields() == AfterBatch(old(Fields()), nNow, fOk) && notifyMaster == WakesMaster(Fields(), fMaster)
      ensures nNow == 0 ==> Fields() == old(Fields()).(nTotal := old(nTotal) + 1) && !notifyMaster
    {
      notifyMaster := false;
      if nNow != 0 {
        fAllOk := fAllOk && fOk;
        nTodo := nTodo - nNow;
        if nTodo == 0 && !fMaster {
          notifyMaster := true;
        }
      } else {
        nTotal := nTotal + 1;
      }
    }

    /** Moving nNow checks from the back of the queue to a local batch, last one first. */
    method TakeBatch(nNow: nat) returns (vChecks: seq<Check>)
      requires nNow <= |queue|
      modifies this`queue
      ensures queue == old(queue)[..|old(queue)| - nNow]
      ensures vChecks == Reverse(old(queue)[|old(queue)| - nNow..])
    {
      vChecks := [];
      while |vChecks| < nNow
        invariant |vChecks| <= nNow
        invariant queue == old(queue)[..|old(queue)| - |vChecks|]
        invariant forall k | 0 <= k < |vChecks| :: vChecks[k] == old(queue)[|old(queue)| - 1 - k]
      {
        vChecks := vChecks + [queue[|queue| - 1]];
        queue := queue[..|queue| - 1];
      }
    }

    /** The waiting loop up to the point where it returns, waits, or has filled a batch. */
    method Proceed(fMaster: bool) returns (d: Decision)
      requires 0 < nTotal
      modifies this
      ensures (Fields(), d) == Settle(old(Fields()), fMaster)
      ensures d.Leave? <==> old(queue) == [] && (fMaster || fQuit) && old(nTodo) == 0
      ensures d.Work? <==> old(queue) != []
    {
      if queue == [] {
        if (fMaster || fQuit) && nTodo == 0 {
          nTotal := nTotal - 1;
          var fRet := fAllOk;
          if fMaster {
            fAllOk := true;
          }
          return Leave(fRet);
        }
        nIdle := nIdle + 1;
        return Sleep;
      }
      var nNow := BatchSize(Fields());
      var vChecks := TakeBatch(nNow);
      d := Work(vChecks, fAllOk);
    }

    /** Coming back from the condition variable. */
    method WakeUp()
      requires 0 < nIdle
      modifies this
      ensures Fields() == old(Fields()).(nIdle := old(nIdle) - 1)
    {
      nIdle := nIdle - 1;
    }
  }

  /** Running a batch outside the critical section: checks after the first failure are skipped. */
  method RunBatch(vChecks: seq<Check>, fStart: bool) returns (fOk: bool)
    ensures fOk == RunChecks(vChecks, fStart)
  {
    fOk := fStart;
    var i := 0;
    while i < |vChecks|
      invariant i <= |vChecks|
      invariant fOk == RunChecks(vChecks[..i], fStart)
    {
      assert vChecks[..i + 1][..i] == vChecks[..i];
      if fOk {
        fOk := vChecks[i].passes;
      }
      i := i + 1;
    }
    assert vChecks[..i] == vChecks;
  }
}

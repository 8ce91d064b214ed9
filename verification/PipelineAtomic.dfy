/** The pipeline with each job's load, check and lock as one step: then the lock keeps jobs from finishing
    each other's changes, and only a cancellation can come in between. */
module PipelineAtomic {
  import opened Strings
  import opened ConfigTree
  import opened Pipeline
  import opened PipelineRows
  import opened PipelineWrites
  import opened PipelineFresh
  import opened PipelineScenarios

  /** Every attempt to lock directly follows its job's load. */
  predicate LoadsLock(es: seq<Event>) {
    forall k :: 0 <= k < |es| && es[k].TryLock? ==> k > 0 && es[k - 1] == Load(es[k].job)
  }

  /* A job that holds the lock has held it since it took it */

  /** Job `a` became `b` without taking the lock. */
  predicate StillHolds(a: Job, b: Job) {
    Holding(a) && a.device == b.device && a.todo == b.todo
  }

  lemma OwnStepHeld(env: Setting, s: State, e: Event, t: State)
    requires Do(env, s, e) == Some(t) && JobEvent(e) && !e.Enqueue? && !e.Load? && !e.TryLock?
    requires e.job in t.jobs && Holding(t.jobs[e.job])
    ensures e.job in s.jobs && Holding(s.jobs[e.job])
  {
    match e
    case Read(j) => ReadAdvances(env, s, j, t);
    case Guard(j) => GuardAdvances(env, s, j, t);
    case Save(j) => SaveAdvances(env, s, j, t);
    case Write(j, config) => WriteAdvances(env, s, j, config, t);
    case Crash(j) => CrashShape(env, s, j, t);
  }

  lemma WasHolding(env: Setting, s: State, e: Event, t: State, j: JobId)
    requires Do(env, s, e) == Some(t) && e != TryLock(j) && j in t.jobs && Holding(t.jobs[j])
    ensures j in s.jobs && StillHolds(s.jobs[j], t.jobs[j])
  {
    if e.Commit? {
      CommitShape(env, s, e.job, e.outcome, t);
    } else if e.Enqueue? {
      EnqueueShape(env, s, e.job, e.work, e.device, t);
    } else if e.Load? {
      LoadShape(env, s, e.job, t);
    } else if JobEvent(e) {
      JobAdvances(env, s, e, t);
      if e.job == j {
        OwnStepHeld(env, s, e, t);
      }
    }
  }

  lemma {:induction false} HeldSince(env: Setting, st: seq<State>, es: seq<Event>, i: nat, k: nat, j: JobId)
    requires Trace(env, st, es) && i <= k <= |es| && j in st[k].jobs && Holding(st[k].jobs[j])
    requires forall p :: i <= p < k ==> es[p] != TryLock(j)
    ensures j in st[i].jobs && StillHolds(st[i].jobs[j], st[k].jobs[j])
    decreases k
  {
    if i < k {
      assert StepAt(env, st, es, k - 1);
      WasHolding(env, st[k - 1], es[k - 1], st[k], j);
      HeldSince(env, st, es, i, k - 1, j);
    }
  }

  /* Only the holder can finish what the holder is about */

  lemma CommitHeld(env: Setting, s: State, j: JobId, outcome: seq<Status>, t: State)
    requires Do(env, s, Commit(j, outcome)) == Some(t)
    ensures j in s.jobs && Holding(s.jobs[j]) && j in t.jobs && !Holding(t.jobs[j])
  {
    CommitShape(env, s, j, outcome, t);
  }

  /** Two jobs under way about one change have one device. */
  lemma OneDevice(rows: Rows, a: Job, b: Job, c: ChangeId)
    requires TodoInv(rows, a) && TodoInv(rows, b) && Holding(a) && Holding(b) && c in a.todo && c in b.todo
    ensures a.device == b.device
  {
    var i :| 0 <= i < |a.todo| && a.todo[i] == c;
    var k :| 0 <= k < |b.todo| && b.todo[k] == c;
  }

  lemma OnlyHolderFinishes(env: Setting, s: State, j: JobId, i: JobId, outcome: seq<Status>, t: State, c: ChangeId)
    requires TodosInv(s) && LockInv(env, s.jobs, s.locks) && Do(env, s, Commit(i, outcome)) == Some(t)
    requires j in s.jobs && Holding(s.jobs[j]) && c in s.jobs[j].todo
    requires i in s.jobs && c in s.jobs[i].todo
    ensures i == j
  {
    CommitHeld(env, s, i, outcome, t);
    assert TodoInv(s.rows, s.jobs[i]) && TodoInv(s.rows, s.jobs[j]);
    OneDevice(s.rows, s.jobs[i], s.jobs[j], c);
  }

  /** While job `j` holds the lock no commit but its own finishes a change it is about. */
  lemma NoOtherFinish(env: Setting, s: State, e: Event, t: State, j: JobId, c: ChangeId)
    requires TodosInv(s) && LockInv(env, s.jobs, s.locks) && Do(env, s, e) == Some(t)
    requires j in s.jobs && Holding(s.jobs[j]) && c in s.jobs[j].todo && j in t.jobs && Holding(t.jobs[j])
    requires Finishes(env, s, e, c)
    ensures e == Cancel(c)
  {
    if e.Commit? {
      OnlyHolderFinishes(env, s, j, e.job, e.outcome, t, c);
      CommitHeld(env, s, e.job, e.outcome, t);
    }
  }

  /* What comes between a job's load and its commit */

  predicate CancelledBetween(es: seq<Event>, m: nat, n: nat, c: ChangeId)
    requires m <= n <= |es|
  {
    exists i :: m <= i < n && es[i] == Cancel(c)
  }

  /** After the last load there is at most the one lock attempt that follows it. */
  lemma {:induction false} LockFollows(es: seq<Event>, n: nat, j: JobId, p: nat)
    requires LoadsLock(es) && n <= |es| && LastLoad(es, n, j) + 1 < p < n
    ensures es[p] != TryLock(j)
    decreases n
  {
    if es[p] == TryLock(j) {
      assert es[p - 1] == Load(j);
      LastLoadIsLast(es, n, j, p - 1);
    }
  }

  lemma {:induction false} LastLoadIsLast(es: seq<Event>, n: nat, j: JobId, p: nat)
    requires p < n <= |es| && es[p] == Load(j)
    ensures p <= LastLoad(es, n, j)
    decreases n
  {
    if p < n - 1 {
      LastLoadIsLast(es, n - 1, j, p);
    }
  }

  lemma NoLockBetween(es: seq<Event>, i: nat, k: nat, j: JobId)
    requires LoadsLock(es) && k <= |es| && LastLoad(es, k, j) < i < k && !es[i].TryLock?
    ensures forall p :: i <= p < k ==> es[p] != TryLock(j)
  {
    forall p | i <= p < k ensures es[p] != TryLock(j) {
      if p > i {
        LockFollows(es, k, j, p);
      }
    }
  }

  /** So a change of a committing job is finished since its load only by a cancellation. */
  lemma FinishIsCancel(env: Setting, st: seq<State>, es: seq<Event>, i: nat, k: nat, j: JobId, c: ChangeId)
    requires Trace(env, st, es) && LoadsLock(es) && k <= |es| && LastLoad(es, k, j) < i < k
    requires j in st[k].jobs && Holding(st[k].jobs[j]) && c in st[k].jobs[j].todo
    requires Finishes(env, st[i], es[i], c)
    ensures es[i] == Cancel(c)
  {
    if es[i].Commit? {
      NoLockBetween(es, i, k, j);
      HeldSince(env, st, es, i + 1, k, j);
      HeldSince(env, st, es, i, k, j);
      TodosHold(env, st, es, i);
      LockHolds(env, st, es, i);
      assert StepAt(env, st, es, i);
      NoOtherFinish(env, st[i], es[i], st[i + 1], j, c);
    }
  }

  lemma {:induction false} FinishedIsCancelled(env: Setting, st: seq<State>, es: seq<Event>, m: nat, n: nat, k: nat,
                                               j: JobId, c: ChangeId)
    requires Trace(env, st, es) && LoadsLock(es) && n <= k <= |es| && LastLoad(es, k, j) < m <= n
    requires j in st[k].jobs && Holding(st[k].jobs[j]) && c in st[k].jobs[j].todo
    ensures FinishedBetween(env, st, es, m, n, c) <==> CancelledBetween(es, m, n, c)
    decreases n
  {
    if m < n {
      FinishedIsCancelled(env, st, es, m, n - 1, k, j, c);
      if Finishes(env, st[n - 1], es[n - 1], c) {
        FinishIsCancel(env, st, es, n - 1, k, j, c);
      }
      CancelledNext(es, m, n, c);
    }
  }

  lemma CancelledNext(es: seq<Event>, m: nat, n: nat, c: ChangeId)
    requires m < n <= |es|
    ensures CancelledBetween(es, m, n, c) <==> CancelledBetween(es, m, n - 1, c) || es[n - 1] == Cancel(c)
  {
  }

  /* The theorem */

  /** No change of the job committing at `k` is cancelled between its load and then. */
  ghost predicate Uncancelled(env: Setting, st: seq<State>, es: seq<Event>, k: nat)
    requires k < |es| < |st|
  {
    var t := st[k];
    es[k].Commit? && es[k].job in t.jobs && Finisher(env, t.jobs[es[k].job]) ==>
      var m := LastLoad(es, k, es[k].job);
      m >= 0 && forall c :: c in t.jobs[es[k].job].todo ==> !CancelledBetween(es, m + 1, k, c)
  }

  ghost predicate NoneCancelled(env: Setting, st: seq<State>, es: seq<Event>, n: nat)
    requires n <= |es| < |st|
    decreases n
  {
    n == 0 || (NoneCancelled(env, st, es, n - 1) && Uncancelled(env, st, es, n - 1))
  }

  lemma UncancelledIsUndisturbed(env: Setting, st: seq<State>, es: seq<Event>, k: nat)
    requires Trace(env, st, es) && LoadsLock(es) && k < |es|
    ensures Uncancelled(env, st, es, k) <==> Undisturbed(env, st, es, k)
  {
    if es[k].Commit? {
      assert StepAt(env, st, es, k);
      var j, m := es[k].job, LastLoad(es, k, es[k].job);
      CommitHeld(env, st[k], j, es[k].outcome, st[k + 1]);
      if m >= 0 {
        forall c | c in st[k].jobs[j].todo
          ensures FinishedBetween(env, st, es, m + 1, k, c) <==> CancelledBetween(es, m + 1, k, c)
        {
          FinishedIsCancelled(env, st, es, m + 1, k, k, j, c);
        }
      }
    }
  }

  lemma {:induction false} CancellationsDisturb(env: Setting, st: seq<State>, es: seq<Event>, n: nat)
    requires Trace(env, st, es) && LoadsLock(es) && n <= |es|
    ensures NoneCancelled(env, st, es, n) <==> AllUndisturbed(env, st, es, n)
    decreases n
  {
    if n > 0 {
      CancellationsDisturb(env, st, es, n - 1);
      UncancelledIsUndisturbed(env, st, es, n - 1);
    }
  }

  /** With each job's load, check and lock as one step, no change is finished, in particular applied, twice
      exactly when none is cancelled between its job's load and commit. */
  lemma AtomicJobsFinishOnce(env: Setting, st: seq<State>, es: seq<Event>, n: nat)
    requires Trace(env, st, es) && LoadsLock(es) && n <= |es|
    ensures FinishedAtMostOnce(st[n].rows) <==> NoneCancelled(env, st, es, n)
  {
    CancellationsDisturb(env, st, es, n);
    UndisturbedJobsFinishOnce(env, st, es, n);
  }

  /** And then applied, failed, conflict and cancelled are absorbing. */
  lemma AtomicStatusStays(env: Setting, st: seq<State>, es: seq<Event>, m: nat, n: nat, c: ChangeId)
    requires Trace(env, st, es) && LoadsLock(es) && m <= n <= |es| && NoneCancelled(env, st, es, n)
    requires c in st[m].rows
    requires Terminal(st[m].rows[c].status)
    ensures c in st[n].rows
    ensures st[n].rows[c].status == st[m].rows[c].status
  {
    CancellationsDisturb(env, st, es, n);
    UndisturbedStatusStays(env, st, es, m, n, c);
  }

  /* A cancellation that comes too late */

  lemma LockedThenCancelled(env: Setting, s: State) returns (st: seq<State>, es: seq<Event>)
    requires Initial(s)
    ensures Trace(env, st, es) && st[0] == s && 0 in st[|es|].rows && st[|es|].rows[0].status == Cancelled
    ensures 0 in st[|es|].jobs && About(st[|es|].jobs[0]) && st[|es|].jobs[0].phase == Locked
    ensures es == [Create(0, 0, ""), Schedule(0), Enqueue(0, Apply(0), 0), Load(0), TryLock(0), Cancel(0)]
  {
    st, es := GetsScheduled(env, s);
    st, es := GetsLoaded(env, st, es, 0);
    st, es := GetsLocked(env, st, es, 0);
    st, es := Extend(env, st, es, Cancel(0));
  }

  lemma LockedApplies(env: Setting, before: seq<State>, past: seq<Event>) returns (st: seq<State>, es: seq<Event>)
    requires Trace(env, before, past) && 0 in before[|past|].rows
    requires 0 in before[|past|].jobs && About(before[|past|].jobs[0]) && before[|past|].jobs[0].phase == Locked
    ensures Trace(env, st, es) && before <= st && 0 in st[|es|].rows && st[|es|].rows[0].status == Applied
    ensures es == past + [Read(0), Guard(0), Save(0), Commit(0, [Applied])]
  {
    st, es := GetsRead(env, before, past, 0);
    st, es := GetsCleared(env, st, es, 0);
    st, es := GetsSaved(env, st, es, 0);
    assert st[|es|].jobs[0].todo[0] == 0;
    st, es := Commits(env, st, es, 0, [Applied]);
  }

  /** Even with load, check and lock as one step, a change cancelled while its job holds the lock is applied
      all the same. */
  lemma CancelledWhileLocked(env: Setting, s: State) returns (st: seq<State>, es: seq<Event>, m: nat)
    requires Initial(s)
    ensures Trace(env, st, es) && st[0] == s && LoadsLock(es) && m <= |es|
    ensures 0 in st[m].rows && st[m].rows[0].status == Cancelled
    ensures 0 in st[|es|].rows && st[|es|].rows[0].status == Applied
  {
    var before, past := LockedThenCancelled(env, s);
    m := |past|;
    st, es := LockedApplies(env, before, past);
    assert st[m] == before[m] && st[0] == before[0];
    LateCancelLoadsLock(past, es);
  }

  lemma LateCancelLoadsLock(past: seq<Event>, es: seq<Event>)
    requires past == [Create(0, 0, ""), Schedule(0), Enqueue(0, Apply(0), 0), Load(0), TryLock(0), Cancel(0)]
    requires es == past + [Read(0), Guard(0), Save(0), Commit(0, [Applied])]
    ensures LoadsLock(es)
  {
    assert forall k :: 0 <= k < |es| && k != 4 ==> !es[k].TryLock?;
  }
}

/** When the pipeline's jobs still find their changes scheduled: a condition on the events between a job's
    load and its commit. */
module PipelineFresh {
  import opened Strings
  import opened ConfigTree
  import opened Pipeline
  import opened PipelineRows
  import opened PipelineWrites

  /** A job whose commit gives its changes a final status. */
  predicate Finisher(env: Setting, job: Job) {
    ConfigJob(job.work) || (job.work.Sweep? && job.attempts >= env.maxAttempts)
  }

  /** The event cancels the change or commits a job that finishes it. */
  predicate Finishes(env: Setting, s: State, e: Event, c: ChangeId) {
    e == Cancel(c)
    || (e.Commit? && e.job in s.jobs && Finisher(env, s.jobs[e.job]) && c in s.jobs[e.job].todo)
  }

  /** Some event from `m` to before `n` finishes the change. */
  ghost predicate FinishedBetween(env: Setting, st: seq<State>, es: seq<Event>, m: nat, n: nat, c: ChangeId)
    requires m <= n <= |es| < |st|
    decreases n
  {
    m < n && (FinishedBetween(env, st, es, m, n - 1, c)
              || Finishes(env, st[n - 1], es[n - 1], c))
  }

  /* The status of a change once it is scheduled */

  lemma SettleStatus(env: Setting, s: State, j: JobId, outcome: seq<Status>, t: State, c: ChangeId)
    requires Do(env, s, Commit(j, outcome)) == Some(t) && TodoInv(s.rows, s.jobs[j]) && ConfigJob(s.jobs[j].work)
    requires c in s.rows && s.rows[c].status == Scheduled
    ensures c in t.rows && (t.rows[c].status == Scheduled <==> c !in s.jobs[j].todo)
  {
    var job := s.jobs[j];
    SettleAt(s.rows, job.todo, outcome, SnapshotOf(j, job), c);
    if c in job.todo {
      var i :| 0 <= i < |job.todo| && job.todo[i] == c;
      assert Terminal(outcome[i]);
    }
  }

  lemma SweepStatus(env: Setting, s: State, j: JobId, outcome: seq<Status>, t: State, c: ChangeId)
    requires Do(env, s, Commit(j, outcome)) == Some(t) && !ConfigJob(s.jobs[j].work)
    requires s.jobs[j].work.Sweep? ==> s.jobs[j].todo == [s.jobs[j].work.change]
    requires c in s.rows && s.rows[c].status == Scheduled
    ensures c in t.rows
    ensures t.rows[c].status == Scheduled <==> !(Finisher(env, s.jobs[j]) && c in s.jobs[j].todo)
  {
  }

  lemma CommitStatus(env: Setting, s: State, j: JobId, outcome: seq<Status>, t: State, c: ChangeId)
    requires TodosInv(s) && Do(env, s, Commit(j, outcome)) == Some(t)
    requires c in s.rows && s.rows[c].status == Scheduled
    ensures c in t.rows && (t.rows[c].status == Scheduled <==> !Finishes(env, s, Commit(j, outcome), c))
  {
    CommitShape(env, s, j, outcome, t);
    assert TodoInv(s.rows, s.jobs[j]);
    if ConfigJob(s.jobs[j].work) {
      SettleStatus(env, s, j, outcome, t, c);
    } else {
      SweepStatus(env, s, j, outcome, t, c);
    }
  }

  /** A scheduled change stays scheduled exactly as long as no event finishes it. */
  lemma StatusStep(env: Setting, s: State, e: Event, t: State, c: ChangeId)
    requires TodosInv(s) && Do(env, s, e) == Some(t) && c in s.rows && s.rows[c].status == Scheduled
    ensures c in t.rows && (t.rows[c].status == Scheduled <==> !Finishes(env, s, e, c))
  {
    if JobEvent(e) {
      JobEventTodos(env, s, e, t);
    } else if e.Commit? {
      CommitStatus(env, s, e.job, e.outcome, t, c);
    }
  }

  lemma {:induction false} StatusAfter(env: Setting, st: seq<State>, es: seq<Event>, m: nat, n: nat, c: ChangeId)
    requires Trace(env, st, es) && m <= n <= |es|
    requires c in st[m].rows && st[m].rows[c].status == Scheduled
    ensures var t := st[n];
            && c in t.rows && (t.rows[c].status == Scheduled <==> !FinishedBetween(env, st, es, m, n, c))
            && (t.rows[c].status == Scheduled || Terminal(t.rows[c].status))
    decreases n
  {
    if m < n {
      assert StepAt(env, st, es, n - 1);
      StatusAfter(env, st, es, m, n - 1, c);
      TodosHold(env, st, es, n - 1);
      AfterStatus(env, st[n - 1], es[n - 1], st[n], c);
    }
  }

  lemma AfterStatus(env: Setting, s: State, e: Event, t: State, c: ChangeId)
    requires TodosInv(s) && Do(env, s, e) == Some(t) && c in s.rows && s.rows[c].status != Draft
    ensures c in t.rows && t.rows[c].status != Draft
    ensures s.rows[c].status == Scheduled ==> (t.rows[c].status == Scheduled <==> !Finishes(env, s, e, c))
    ensures s.rows[c].status != Scheduled ==> t.rows[c].status != Scheduled
  {
    RowsStep(env, s, e, t);
    TerminalStep(env, s, e, t);
    if s.rows[c].status == Scheduled {
      StatusStep(env, s, e, t, c);
    }
  }

  /* When a job loaded its changes */

  /** The last load of job `j` among the first `n` events, or -1. */
  function LastLoad(es: seq<Event>, n: nat, j: JobId): (m: int)
    requires n <= |es|
    ensures -1 <= m < n
  {
    if n == 0 then -1 else if es[n - 1] == Load(j) then n - 1 else LastLoad(es, n - 1, j)
  }

  predicate UnderWay(job: Job) {
    job.phase != Queued && job.phase != Over
  }

  /** What job `j` is about was scheduled in `s`. */
  ghost predicate FoundScheduled(s: State, todo: seq<ChangeId>) {
    forall c :: c in todo ==> c in s.rows && s.rows[c].status == Scheduled
  }

  lemma LoadFinds(env: Setting, s: State, j: JobId, t: State)
    requires TodosInv(s) && Do(env, s, Load(j)) == Some(t) && UnderWay(t.jobs[j])
    ensures FoundScheduled(t, t.jobs[j].todo)
  {
    LoadShape(env, s, j, t);
    var job := s.jobs[j];
    assert TodoInv(s.rows, job);
    var todo := ScheduledOf(s.rows, Members(job.work));
    ScheduledTodo(s.rows, job.work, job.device, todo);
    forall c | c in t.jobs[j].todo ensures c in t.rows && t.rows[c].status == Scheduled {
      var i :| 0 <= i < |t.jobs[j].todo| && t.jobs[j].todo[i] == c;
    }
  }

  /** A job under way that did not load just now was under way before, about the same changes. */
  lemma WasUnderWay(env: Setting, s: State, e: Event, t: State, j: JobId)
    requires Do(env, s, e) == Some(t) && e != Load(j) && j in t.jobs && UnderWay(t.jobs[j])
    ensures j in s.jobs && UnderWay(s.jobs[j]) && s.jobs[j].todo == t.jobs[j].todo
  {
    if e.Commit? {
      CommitShape(env, s, e.job, e.outcome, t);
    } else if e.Enqueue? {
      EnqueueShape(env, s, e.job, e.work, e.device, t);
    } else if e.Load? {
      LoadShape(env, s, e.job, t);
    } else if JobEvent(e) {
      JobAdvances(env, s, e, t);
    }
  }

  lemma LoadFindsAt(env: Setting, st: seq<State>, es: seq<Event>, k: nat, j: JobId)
    requires Trace(env, st, es) && k < |es| && es[k] == Load(j)
    requires j in st[k + 1].jobs && UnderWay(st[k + 1].jobs[j])
    ensures FoundScheduled(st[k + 1], st[k + 1].jobs[j].todo)
  {
    assert StepAt(env, st, es, k);
    TodosHold(env, st, es, k);
    LoadFinds(env, st[k], j, st[k + 1]);
  }

  lemma WasUnderWayAt(env: Setting, st: seq<State>, es: seq<Event>, k: nat, j: JobId)
    requires Trace(env, st, es) && k < |es| && es[k] != Load(j)
    requires j in st[k + 1].jobs && UnderWay(st[k + 1].jobs[j])
    ensures j in st[k].jobs && UnderWay(st[k].jobs[j]) && st[k].jobs[j].todo == st[k + 1].jobs[j].todo
  {
    assert StepAt(env, st, es, k);
    WasUnderWay(env, st[k], es[k], st[k + 1], j);
  }

  lemma {:induction false} LoadedSince(env: Setting, st: seq<State>, es: seq<Event>, n: nat, j: JobId)
    requires Trace(env, st, es) && n <= |es|
    requires j in st[n].jobs && UnderWay(st[n].jobs[j])
    ensures var m := LastLoad(es, n, j); m >= 0 && FoundScheduled(st[m + 1], st[n].jobs[j].todo)
    decreases n
  {
    assert n > 0;
    if es[n - 1] == Load(j) {
      LoadFindsAt(env, st, es, n - 1, j);
    } else {
      WasUnderWayAt(env, st, es, n - 1, j);
      LoadedSince(env, st, es, n - 1, j);
    }
  }

  /* The condition */

  /** No change of the job committing at `k` is cancelled or finished between its load and then. */
  ghost predicate Undisturbed(env: Setting, st: seq<State>, es: seq<Event>, k: nat)
    requires k < |es| < |st|
  {
    var t := st[k];
    es[k].Commit? && es[k].job in t.jobs && Finisher(env, t.jobs[es[k].job]) ==>
      var m := LastLoad(es, k, es[k].job);
      m >= 0 && forall c :: c in t.jobs[es[k].job].todo ==> !FinishedBetween(env, st, es, m + 1, k, c)
  }

  ghost predicate AllUndisturbed(env: Setting, st: seq<State>, es: seq<Event>, n: nat)
    requires n <= |es| < |st|
    decreases n
  {
    n == 0 || (AllUndisturbed(env, st, es, n - 1) && Undisturbed(env, st, es, n - 1))
  }

  /** A commit is fresh in terms of what the job is about. */
  lemma FreshMeans(env: Setting, s: State, e: Event)
    requires TodosInv(s) && e.Commit? && Do(env, s, e).Some?
    ensures e.job in s.jobs && UnderWay(s.jobs[e.job])
    ensures Fresh(env, s, e) <==> (Finisher(env, s.jobs[e.job]) ==> FoundScheduled(s, s.jobs[e.job].todo))
  {
    var job := s.jobs[e.job];
    assert TodoInv(s.rows, job);
    forall c | c in job.todo ensures c in s.rows {
      var i :| 0 <= i < |job.todo| && job.todo[i] == c;
    }
    if job.work.Sweep? {
      assert job.todo[0] == job.work.change;
    }
  }

  /** What became of a job's changes since it loaded them. */
  lemma SinceLoad(env: Setting, st: seq<State>, es: seq<Event>, k: nat, j: JobId)
    requires Trace(env, st, es) && k <= |es|
    requires j in st[k].jobs && UnderWay(st[k].jobs[j])
    ensures var t, m := st[k], LastLoad(es, k, j);
            m >= 0 && (FoundScheduled(t, t.jobs[j].todo)
                       <==> forall c :: c in t.jobs[j].todo ==> !FinishedBetween(env, st, es, m + 1, k, c))
  {
    var t := st[k];
    LoadedSince(env, st, es, k, j);
    var m := LastLoad(es, k, j);
    forall c | c in t.jobs[j].todo
      ensures c in t.rows && (t.rows[c].status == Scheduled <==> !FinishedBetween(env, st, es, m + 1, k, c))
    {
      StatusAfter(env, st, es, m + 1, k, c);
    }
  }

  lemma UndisturbedIsFresh(env: Setting, st: seq<State>, es: seq<Event>, k: nat)
    requires Trace(env, st, es) && k < |es|
    ensures Undisturbed(env, st, es, k) <==> Fresh(env, st[k], es[k])
  {
    if es[k].Commit? {
      assert StepAt(env, st, es, k);
      TodosHold(env, st, es, k);
      FreshMeans(env, st[k], es[k]);
      SinceLoad(env, st, es, k, es[k].job);
    }
  }

  /** Every committing job finds its changes scheduled exactly when no change of a job is cancelled, or
      finished by another commit, between the job's load and its commit. */
  lemma {:induction false} FreshExactlyWhen(env: Setting, st: seq<State>, es: seq<Event>, n: nat)
    requires Trace(env, st, es) && n <= |es|
    ensures AllFresh(env, st, es, n) <==> AllUndisturbed(env, st, es, n)
    decreases n
  {
    if n > 0 {
      FreshExactlyWhen(env, st, es, n - 1);
      UndisturbedIsFresh(env, st, es, n - 1);
    }
  }

  /** So over any interleaving no change is finished twice exactly when no change is cancelled or finished
      by another commit between a job's load and its commit; and then applied, failed, conflict and
      cancelled are absorbing. */
  lemma UndisturbedJobsFinishOnce(env: Setting, st: seq<State>, es: seq<Event>, n: nat)
    requires Trace(env, st, es) && n <= |es|
    ensures FinishedAtMostOnce(st[n].rows) <==> AllUndisturbed(env, st, es, n)
  {
    FreshExactlyWhen(env, st, es, n);
    FinishedOnceExactlyWhen(env, st, es, n);
  }

  lemma UndisturbedStatusStays(env: Setting, st: seq<State>, es: seq<Event>, m: nat, n: nat, c: ChangeId)
    requires Trace(env, st, es) && m <= n <= |es| && AllUndisturbed(env, st, es, n)
    requires c in st[m].rows
    requires Terminal(st[m].rows[c].status)
    ensures c in st[n].rows
    ensures st[n].rows[c].status == st[m].rows[c].status
  {
    FreshExactlyWhen(env, st, es, n);
    FinalStatusStays(env, st, es, m, n, c);
  }
}

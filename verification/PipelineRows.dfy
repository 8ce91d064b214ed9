/** What the pipeline's interleavings do to the stored changes: rollback snapshots, final statuses, and
    the one way a change can be finished twice. */
module PipelineRows {
  import opened Strings
  import opened ConfigTree
  import opened Pipeline

  type Rows = map<ChangeId, Change>

  /** Rows are never removed and keep their device and baseline. */
  ghost predicate Grows(a: Rows, b: Rows) {
    forall c :: c in a ==> c in b && b[c].device == a[c].device && b[c].baseline == a[c].baseline
  }

  /* Settling a list of changes */

  lemma {:induction false} SettleAt(rows: Rows, todo: seq<ChangeId>, outcome: seq<Status>, snapshot: Option<JobId>, c: ChangeId)
    requires |outcome| == |todo| && forall i, k :: 0 <= i < k < |todo| ==> todo[i] != todo[k]
    ensures c in Settle(rows, todo, outcome, snapshot) <==> c in rows
    ensures c in rows && c !in todo ==> Settle(rows, todo, outcome, snapshot)[c] == rows[c]
    ensures forall i :: 0 <= i < |todo| && todo[i] == c && c in rows ==>
              Settle(rows, todo, outcome, snapshot)[c] == Give(rows[c], outcome[i], snapshot)
    decreases |todo|
  {
    if todo != [] {
      var n := |todo| - 1;
      SettleAt(rows, todo[..n], outcome[..n], snapshot, c);
      assert todo == todo[..n] + [todo[n]];
      if todo[n] == c {
        assert c !in todo[..n];
      }
    }
  }

  lemma {:induction false} ScheduledOfMember(rows: Rows, ms: seq<ChangeId>, i: nat) returns (k: nat)
    requires i < |ScheduledOf(rows, ms)|
    ensures k < |ms| && ms[k] == ScheduledOf(rows, ms)[i] && ms[k] in rows && rows[ms[k]].status == Scheduled
    decreases |ms|
  {
    var n := |ms| - 1;
    if i < |ScheduledOf(rows, ms[..n])| {
      k := ScheduledOfMember(rows, ms[..n], i);
    } else {
      k := n;
    }
  }

  lemma {:induction false} ScheduledOfDistinct(rows: Rows, ms: seq<ChangeId>)
    requires forall i, k :: 0 <= i < k < |ms| ==> ms[i] != ms[k]
    ensures forall i, k :: 0 <= i < k < |ScheduledOf(rows, ms)| ==> ScheduledOf(rows, ms)[i] != ScheduledOf(rows, ms)[k]
    decreases |ms|
  {
    if ms != [] {
      var n := |ms| - 1;
      var front, all := ScheduledOf(rows, ms[..n]), ScheduledOf(rows, ms);
      ScheduledOfDistinct(rows, ms[..n]);
      forall i, k | 0 <= i < k < |all| ensures all[i] != all[k] {
        if k == |front| {
          var m := ScheduledOfMember(rows, ms[..n], i);
        }
      }
    }
  }

  /* What a job may assume about the rows it works on */

  ghost predicate TodoInv(rows: Rows, j: Job) {
    && (j.phase == Queued ==> Sensible(rows, j.work, j.device) && j.todo == [])
    && (j.phase != Queued && j.phase != Over ==>
          && (forall i, k :: 0 <= i < k < |j.todo| ==> j.todo[i] != j.todo[k])
          && (forall i :: 0 <= i < |j.todo| ==>
                j.todo[i] in rows && rows[j.todo[i]].device == j.device && rows[j.todo[i]].status != Draft)
          && (j.todo != [] ==> j.todo[0] in rows && rows[j.todo[0]].baseline == j.baseline)
          && (ConfigJob(j.work) ==> j.todo != [])
          && (j.work.Sweep? ==> j.todo == [j.work.change]))
  }

  ghost predicate TodosInv(s: State) {
    forall j :: j in s.jobs ==> TodoInv(s.rows, s.jobs[j])
  }

  /** No row goes back to draft. */
  ghost predicate NoRedraft(a: Rows, b: Rows) {
    forall c :: c in a && c in b && a[c].status != Draft ==> b[c].status != Draft
  }

  lemma TodoKept(a: Rows, b: Rows, j: Job)
    requires TodoInv(a, j) && Grows(a, b) && NoRedraft(a, b)
    ensures TodoInv(b, j)
  {
  }

  lemma TodosKept(s: State, t: State, j: JobId)
    requires TodosInv(s) && Grows(s.rows, t.rows) && NoRedraft(s.rows, t.rows)
    requires j in t.jobs ==> t.jobs == s.jobs[j := t.jobs[j]] && TodoInv(t.rows, t.jobs[j])
    requires j !in t.jobs ==> t.jobs == s.jobs
    ensures TodosInv(t)
  {
    forall i | i in t.jobs ensures TodoInv(t.rows, t.jobs[i]) {
      if i in s.jobs {
        TodoKept(s.rows, t.rows, s.jobs[i]);
      }
    }
  }

  lemma ScheduledTodo(rows: Rows, w: Work, device: DeviceId, todo: seq<ChangeId>)
    requires Sensible(rows, w, device) && todo == ScheduledOf(rows, Members(w))
    ensures forall i, k :: 0 <= i < k < |todo| ==> todo[i] != todo[k]
    ensures forall i :: 0 <= i < |todo| ==>
              todo[i] in rows && rows[todo[i]].status == Scheduled && rows[todo[i]].device == device
    ensures w.Sweep? && todo != [] ==> todo == [w.change]
  {
    var ms := Members(w);
    ScheduledOfDistinct(rows, ms);
    forall i | 0 <= i < |todo|
      ensures todo[i] in rows && rows[todo[i]].status == Scheduled && rows[todo[i]].device == device
    {
      var k := ScheduledOfMember(rows, ms, i);
    }
    if w.Sweep? {
      assert ms[..0] == [];
    }
  }

  lemma LoadedJob(rows: Rows, a: Job, b: Job)
    requires TodoInv(rows, a) && a.phase == Queued && b.todo == ScheduledOf(rows, Members(a.work)) && b.todo != []
    requires b.todo[0] in rows ==> b.baseline == rows[b.todo[0]].baseline
    requires b.work == a.work && b.device == a.device && b.phase == Loaded
    ensures TodoInv(rows, b)
  {
    ScheduledTodo(rows, a.work, a.device, b.todo);
  }

  lemma LoadedTodo(env: Setting, s: State, j: JobId, t: State)
    requires Do(env, s, Load(j)) == Some(t) && TodoInv(s.rows, s.jobs[j])
    ensures OneJob(s, t, j) && TodoInv(t.rows, t.jobs[j])
  {
    LoadShape(env, s, j, t);
    var job := t.jobs[j];
    if job.phase == Loaded && job.work != Firmware {
      LoadedJob(s.rows, s.jobs[j], job);
    }
  }

  lemma CommitGrows(env: Setting, s: State, j: JobId, outcome: seq<Status>)
    requires j in s.jobs && TodoInv(s.rows, s.jobs[j]) && DoCommit(env, s, j, outcome).Some?
    ensures var t := DoCommit(env, s, j, outcome).value; Grows(s.rows, t.rows) && NoRedraft(s.rows, t.rows)
  {
    var t, job := DoCommit(env, s, j, outcome).value, s.jobs[j];
    if ConfigJob(job.work) {
      forall c | c in s.rows
        ensures c in t.rows && t.rows[c].device == s.rows[c].device && t.rows[c].baseline == s.rows[c].baseline
        ensures s.rows[c].status != Draft ==> t.rows[c].status != Draft
      {
        SettleAt(s.rows, job.todo, outcome, SnapshotOf(j, job), c);
        if c in job.todo {
          var i :| 0 <= i < |job.todo| && job.todo[i] == c;
        }
      }
    }
  }

  lemma RowsStep(env: Setting, s: State, e: Event, t: State)
    requires TodosInv(s) && Do(env, s, e) == Some(t)
    ensures Grows(s.rows, t.rows) && NoRedraft(s.rows, t.rows)
  {
    if JobEvent(e) {
      JobEventTodos(env, s, e, t);
    } else if e.Commit? {
      CommitGrows(env, s, e.job, e.outcome);
    }
  }

  lemma JobEventTodos(env: Setting, s: State, e: Event, t: State)
    requires TodosInv(s) && Do(env, s, e) == Some(t) && JobEvent(e)
    ensures OneJob(s, t, e.job) && TodoInv(t.rows, t.jobs[e.job])
  {
    if e.Enqueue? {
      EnqueuedTodo(env, s, e.job, e.work, e.device, t);
    } else if e.Load? {
      LoadedTodo(env, s, e.job, t);
    } else {
      JobAdvances(env, s, e, t);
      AdvancedTodo(s.rows, s.jobs[e.job], t.jobs[e.job]);
    }
  }

  lemma EnqueuedTodo(env: Setting, s: State, j: JobId, w: Work, d: DeviceId, t: State)
    requires Do(env, s, Enqueue(j, w, d)) == Some(t)
    ensures OneJob(s, t, j) && TodoInv(t.rows, t.jobs[j])
  {
  }

  lemma AdvancedTodo(rows: Rows, a: Job, b: Job)
    requires TodoInv(rows, a) && Advances(a, b)
    ensures TodoInv(rows, b)
  {
  }

  lemma TodosStep(env: Setting, s: State, e: Event, t: State)
    requires TodosInv(s) && Do(env, s, e) == Some(t)
    ensures TodosInv(t)
  {
    if JobEvent(e) {
      JobEventTodos(env, s, e, t);
      TodosKept(s, t, e.job);
    } else if e.Commit? {
      TodosCommit(env, s, e.job, e.outcome);
    } else {
      RowsStep(env, s, e, t);
      TodosSame(s, t);
    }
  }

  lemma TodosSame(s: State, t: State)
    requires TodosInv(s) && Grows(s.rows, t.rows) && NoRedraft(s.rows, t.rows) && t.jobs == s.jobs
    ensures TodosInv(t)
  {
    forall i | i in t.jobs ensures TodoInv(t.rows, t.jobs[i]) {
      TodoKept(s.rows, t.rows, s.jobs[i]);
    }
  }

  lemma TodosCommit(env: Setting, s: State, j: JobId, outcome: seq<Status>)
    requires TodosInv(s) && j in s.jobs && DoCommit(env, s, j, outcome).Some?
    ensures TodosInv(DoCommit(env, s, j, outcome).value)
  {
    CommitGrows(env, s, j, outcome);
    TodosKept(s, DoCommit(env, s, j, outcome).value, j);
  }

  lemma {:induction false} TodosHold(env: Setting, st: seq<State>, es: seq<Event>, n: nat)
    requires Trace(env, st, es) && n <= |es|
    ensures TodosInv(st[n])
    decreases n
  {
    if n > 0 {
      assert StepAt(env, st, es, n - 1);
      TodosHold(env, st, es, n - 1);
      TodosStep(env, st[n - 1], es[n - 1], st[n]);
    }
  }

  /* Final statuses */

  /** The row a committing job is about to finish is still scheduled. The code checks this when it loads
      the row, before it takes the lock, and does not look again. */
  ghost predicate Fresh(env: Setting, s: State, e: Event) {
    e.Commit? && e.job in s.jobs ==>
      var job := s.jobs[e.job];
      && (ConfigJob(job.work) ==> forall c :: c in job.todo && c in s.rows ==> s.rows[c].status == Scheduled)
      && (job.work.Sweep? && job.work.change in s.rows && job.attempts >= env.maxAttempts ==>
            s.rows[job.work.change].status == Scheduled)
  }

  ghost predicate OnceInv(rows: Rows) {
    forall c :: c in rows ==> rows[c].ends == if Terminal(rows[c].status) then 1 else 0
  }

  ghost predicate FinishedAtMostOnce(rows: Rows) {
    forall c :: c in rows ==> rows[c].ends <= 1
  }

  /** `a` and `b` differ in no finished change. */
  ghost predicate KeepsFinished(a: Rows, b: Rows) {
    forall c :: c in a && Terminal(a[c].status) ==> c in b && b[c].status == a[c].status && b[c].ends == a[c].ends
  }

  lemma FreshSettle(env: Setting, s: State, j: JobId, outcome: seq<Status>)
    requires j in s.jobs && TodoInv(s.rows, s.jobs[j]) && OnceInv(s.rows) && ConfigJob(s.jobs[j].work)
    requires DoCommit(env, s, j, outcome).Some? && Fresh(env, s, Commit(j, outcome))
    ensures var t := DoCommit(env, s, j, outcome).value; OnceInv(t.rows) && KeepsFinished(s.rows, t.rows)
  {
    var t, job := DoCommit(env, s, j, outcome).value, s.jobs[j];
    forall c | c in t.rows
      ensures t.rows[c].ends == if Terminal(t.rows[c].status) then 1 else 0
    {
      SettleAt(s.rows, job.todo, outcome, SnapshotOf(j, job), c);
      if c in job.todo {
        var i :| 0 <= i < |job.todo| && job.todo[i] == c;
        assert Terminal(outcome[i]);
      }
    }
    forall c | c in s.rows && Terminal(s.rows[c].status) ensures c in t.rows && t.rows[c] == s.rows[c] {
      SettleAt(s.rows, job.todo, outcome, SnapshotOf(j, job), c);
    }
  }

  lemma OnceStep(env: Setting, s: State, e: Event, t: State)
    requires TodosInv(s) && OnceInv(s.rows) && Do(env, s, e) == Some(t) && Fresh(env, s, e)
    ensures OnceInv(t.rows) && KeepsFinished(s.rows, t.rows)
  {
    if JobEvent(e) {
      JobEventTodos(env, s, e, t);
    } else if e.Commit? {
      if ConfigJob(s.jobs[e.job].work) {
        FreshSettle(env, s, e.job, e.outcome);
      } else {
        FreshSweep(env, s, e.job, e.outcome);
      }
    } else {
      OnceCall(env, s, e, t);
    }
  }

  lemma FreshSweep(env: Setting, s: State, j: JobId, outcome: seq<Status>)
    requires j in s.jobs && OnceInv(s.rows) && !ConfigJob(s.jobs[j].work)
    requires DoCommit(env, s, j, outcome).Some? && Fresh(env, s, Commit(j, outcome))
    ensures var t := DoCommit(env, s, j, outcome).value; OnceInv(t.rows) && KeepsFinished(s.rows, t.rows)
  {
  }

  lemma OnceCall(env: Setting, s: State, e: Event, t: State)
    requires OnceInv(s.rows) && Do(env, s, e) == Some(t) && !JobEvent(e) && !e.Commit?
    ensures OnceInv(t.rows) && KeepsFinished(s.rows, t.rows)
  {
  }

  /** A commit that is not fresh finishes a change a second time. */
  lemma StaleStep(env: Setting, s: State, e: Event, t: State)
    requires TodosInv(s) && OnceInv(s.rows) && Do(env, s, e) == Some(t) && !Fresh(env, s, e)
    ensures !FinishedAtMostOnce(t.rows)
  {
    var job := s.jobs[e.job];
    assert TodoInv(s.rows, job);
    if ConfigJob(job.work) {
      var c :| c in job.todo && c in s.rows && s.rows[c].status != Scheduled;
      var i :| 0 <= i < |job.todo| && job.todo[i] == c;
      SettleAt(s.rows, job.todo, e.outcome, SnapshotOf(e.job, job), c);
      assert t.rows[c].ends == 2;
    } else {
      assert job.todo[0] == job.work.change;
      assert t.rows[job.work.change].ends == 2;
    }
  }

  /** Every commit among the first `n` events is fresh. */
  ghost predicate AllFresh(env: Setting, st: seq<State>, es: seq<Event>, n: nat)
    requires n <= |es| < |st|
    decreases n
  {
    n == 0 || (AllFresh(env, st, es, n - 1) && Fresh(env, st[n - 1], es[n - 1]))
  }

  /** Rows stay and are not un-finished. */
  ghost predicate EndsGrow(a: Rows, b: Rows) {
    forall c :: c in a ==> c in b && a[c].ends <= b[c].ends
  }

  lemma EndsStep(env: Setting, s: State, e: Event, t: State)
    requires TodosInv(s) && Do(env, s, e) == Some(t)
    ensures EndsGrow(s.rows, t.rows)
  {
    if JobEvent(e) {
      JobEventTodos(env, s, e, t);
    } else if e.Commit? {
      var job := s.jobs[e.job];
      assert TodoInv(s.rows, job);
      if ConfigJob(job.work) {
        forall c | c in s.rows ensures c in t.rows && s.rows[c].ends <= t.rows[c].ends {
          SettleAt(s.rows, job.todo, e.outcome, SnapshotOf(e.job, job), c);
        }
      }
    }
  }

  lemma {:induction false} FreshRun(env: Setting, st: seq<State>, es: seq<Event>, n: nat)
    requires Trace(env, st, es) && n <= |es| && AllFresh(env, st, es, n)
    ensures OnceInv(st[n].rows)
    decreases n
  {
    if n > 0 {
      assert StepAt(env, st, es, n - 1);
      FreshRun(env, st, es, n - 1);
      TodosHold(env, st, es, n - 1);
      OnceStep(env, st[n - 1], es[n - 1], st[n]);
    }
  }

  /** The first stale commit of a run finishes a change twice. */
  lemma {:induction false} OnceRun(env: Setting, st: seq<State>, es: seq<Event>, n: nat)
    requires Trace(env, st, es) && n <= |es|
    requires FinishedAtMostOnce(st[n].rows)
    ensures AllFresh(env, st, es, n)
    decreases n
  {
    if n > 0 {
      assert StepAt(env, st, es, n - 1);
      var before, after := st[n - 1], st[n];
      TodosHold(env, st, es, n - 1);
      OnceBefore(env, before, es[n - 1], after);
      OnceRun(env, st, es, n - 1);
      FreshRun(env, st, es, n - 1);
      OnceFresh(env, before, es[n - 1], after);
    }
  }

  lemma OnceBefore(env: Setting, s: State, e: Event, t: State)
    requires TodosInv(s) && Do(env, s, e) == Some(t) && FinishedAtMostOnce(t.rows)
    ensures FinishedAtMostOnce(s.rows)
  {
    EndsStep(env, s, e, t);
    assert forall c :: c in s.rows ==> c in t.rows && s.rows[c].ends <= t.rows[c].ends;
  }

  lemma OnceFresh(env: Setting, s: State, e: Event, t: State)
    requires TodosInv(s) && OnceInv(s.rows) && Do(env, s, e) == Some(t) && FinishedAtMostOnce(t.rows)
    ensures Fresh(env, s, e)
  {
    if !Fresh(env, s, e) {
      StaleStep(env, s, e, t);
    }
  }

  /** Over any interleaving, no change was finished twice exactly when every committing job still found
      its changes scheduled. */
  lemma FinishedOnceExactlyWhen(env: Setting, st: seq<State>, es: seq<Event>, n: nat)
    requires Trace(env, st, es) && n <= |es|
    ensures FinishedAtMostOnce(st[n].rows) <==> AllFresh(env, st, es, n)
  {
    if AllFresh(env, st, es, n) {
      FreshRun(env, st, es, n);
    }
    if FinishedAtMostOnce(st[n].rows) {
      OnceRun(env, st, es, n);
    }
  }

  /** In such runs applied, failed, conflict and cancelled are absorbing. */
  lemma {:induction false} FinalStatusStays(env: Setting, st: seq<State>, es: seq<Event>, m: nat, n: nat, c: ChangeId)
    requires Trace(env, st, es) && m <= n <= |es| && AllFresh(env, st, es, n)
    requires c in st[m].rows
    requires Terminal(st[m].rows[c].status)
    ensures c in st[n].rows
    ensures st[n].rows[c].status == st[m].rows[c].status
    decreases n
  {
    if m < n {
      assert StepAt(env, st, es, n - 1);
      FinalStatusStays(env, st, es, m, n - 1, c);
      FreshRun(env, st, es, n - 1);
      TodosHold(env, st, es, n - 1);
      OnceStep(env, st[n - 1], es[n - 1], st[n]);
    }
  }
}

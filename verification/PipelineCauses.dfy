/** Why a device and a change are as they are: which event changed them, and what had to happen first. */
module PipelineCauses {
  import opened Strings
  import opened ConfigTree
  import opened Pipeline
  import opened PipelineRows
  import opened PipelineWrites

  /* The devices */

  /** The event writes configuration `x` to device `d`, and the write is the next entry of the log. */
  ghost predicate LoggedWrite(s: State, e: Event, t: State, d: DeviceId, x: Config) {
    && e.Write? && e.config == x && e.job in s.jobs && s.jobs[e.job].device == d && |t.log| == |s.log| + 1
    && (var r := t.log[|s.log|];
        && t.log == s.log + [r] && r.job == e.job && r.device == d && r.changes == s.jobs[e.job].todo
        && r.replaced == s.box(d) && r.rows == s.rows && (r.first <==> s.jobs[e.job].writes == 0)
        && (r.undisturbed <==> s.edits(d) == s.jobs[e.job].seen))
  }

  /** In every run a device's configuration changes only by an edit made on it or by a write that is logged,
      and to exactly what was written; and the log holds nothing else. */
  lemma DeviceChangesExactly(env: Setting, st: seq<State>, es: seq<Event>, k: nat, d: DeviceId)
    requires Trace(env, st, es) && k < |es|
    ensures var s, e, t := st[k], es[k], st[k + 1];
            && (t.box(d) != s.box(d) ==> e == Edit(d, t.box(d)) || LoggedWrite(s, e, t, d, t.box(d)))
            && (e.Edit? && e.device == d ==> t.box(d) == e.config)
            && (e.Write? ==> e.job in s.jobs && t.box(s.jobs[e.job].device) == e.config
                             && LoggedWrite(s, e, t, s.jobs[e.job].device, e.config))
            && (!e.Write? ==> t.log == s.log)
            && t.edits(d) == s.edits(d) + if e.Edit? && e.device == d then 1 else 0
  {
    assert StepAt(env, st, es, k);
    var s, e, t := st[k], es[k], st[k + 1];
    if e.Write? {
      WriteReaches(env, s, e.job, e.config, t, d);
    } else {
      OtherFields(env, s, e, t);
      BoxStays(env, s, e, t, d);
    }
  }

  lemma BoxStays(env: Setting, s: State, e: Event, t: State, d: DeviceId)
    requires Do(env, s, e) == Some(t) && !e.Write?
    ensures t.box(d) == if e.Edit? && e.device == d then e.config else s.box(d)
    ensures t.edits(d) == s.edits(d) + if e.Edit? && e.device == d then 1 else 0
  {
    if e.Commit? {
      CommitShape(env, s, e.job, e.outcome, t);
    } else if e.Load? {
      LoadShape(env, s, e.job, t);
    }
  }

  lemma WriteReaches(env: Setting, s: State, j: JobId, config: Config, t: State, d: DeviceId)
    requires Do(env, s, Write(j, config)) == Some(t)
    ensures j in s.jobs && t.box(s.jobs[j].device) == config && (d != s.jobs[j].device ==> t.box(d) == s.box(d))
    ensures t.edits(d) == s.edits(d)
    ensures LoggedWrite(s, Write(j, config), t, s.jobs[j].device, config)
  {
  }

  /* The changes */

  /** What a committing job gives its changes, by what it found on the device. */
  ghost predicate Given(env: Setting, job: Job, status: Status) {
    && (status == Applied || status == Failed || status == Conflict)
    && (status == Conflict <==> job.xml.Some? && job.phase == HasRead && !Unchanged(env, job.baseline, job.xml.value))
    && (status == Applied ==> job.xml.Some? && Unchanged(env, job.baseline, job.xml.value))
  }

  lemma ConfigCommit(env: Setting, s: State, j: JobId, outcome: seq<Status>, t: State, c: ChangeId)
    requires TodosInv(s) && ReadsInv(env, s) && Do(env, s, Commit(j, outcome)) == Some(t) && c in s.rows
    requires j in s.jobs && ConfigJob(s.jobs[j].work)
    ensures c in t.rows
    ensures if c in s.jobs[j].todo then Given(env, s.jobs[j], t.rows[c].status) else t.rows[c] == s.rows[c]
  {
    var job := s.jobs[j];
    assert TodoInv(s.rows, job) && ReadInv(env, job, s.box, s.edits);
    CommitShape(env, s, j, outcome, t);
    SettleAt(s.rows, job.todo, outcome, SnapshotOf(j, job), c);
    if c in job.todo {
      var i :| 0 <= i < |job.todo| && job.todo[i] == c;
    }
  }

  /** A job that gives up on a change found no attempts left. */
  lemma SweepCommit(env: Setting, s: State, j: JobId, outcome: seq<Status>, t: State, c: ChangeId)
    requires Do(env, s, Commit(j, outcome)) == Some(t) && c in s.rows
    requires j in s.jobs && !ConfigJob(s.jobs[j].work)
    ensures c in t.rows
    ensures t.rows[c] != s.rows[c] ==> s.jobs[j].work == Sweep(c)
    ensures t.rows[c].status != s.rows[c].status ==>
              t.rows[c].status == Failed && s.jobs[j].attempts >= env.maxAttempts
  {
  }

  /** The event that gives change `c` its status, and why. */
  ghost predicate Causes(env: Setting, s: State, e: Event, c: ChangeId, status: Status) {
    match e
    case Schedule(d) => d == c && status == Scheduled
    case Cancel(d) => d == c && status == Cancelled
    case Commit(j, _) =>
      && j in s.jobs
      && (if ConfigJob(s.jobs[j].work) then c in s.jobs[j].todo && Given(env, s.jobs[j], status)
          else s.jobs[j].work == Sweep(c) && status == Failed && s.jobs[j].attempts >= env.maxAttempts)
    case _ => false
  }

  lemma StatusCaused(env: Setting, s: State, e: Event, t: State, c: ChangeId)
    requires TodosInv(s) && ReadsInv(env, s) && Do(env, s, e) == Some(t) && c in s.rows
    ensures c in t.rows && (t.rows[c].status != s.rows[c].status ==> Causes(env, s, e, c, t.rows[c].status))
  {
    if JobEvent(e) {
      JobEventTodos(env, s, e, t);
    } else if e.Commit? {
      CommitShape(env, s, e.job, e.outcome, t);
      if ConfigJob(s.jobs[e.job].work) {
        ConfigCommit(env, s, e.job, e.outcome, t, c);
      } else {
        SweepCommit(env, s, e.job, e.outcome, t, c);
      }
    }
  }

  /** In every run the status of a change moves only by being scheduled or cancelled, by the commit of a job
      about it, which reports conflict exactly when what it read under the lock did not match the baseline
      and applied only when it did, or by a sweep that found no attempts left. */
  lemma StatusMovesOnlySo(env: Setting, st: seq<State>, es: seq<Event>, k: nat, c: ChangeId)
    requires Trace(env, st, es) && k < |es| && c in st[k].rows
    ensures c in st[k + 1].rows
    ensures st[k + 1].rows[c].status != st[k].rows[c].status ==> Causes(env, st[k], es[k], c, st[k + 1].rows[c].status)
  {
    assert StepAt(env, st, es, k);
    TodosHold(env, st, es, k);
    ReadsHold(env, st, es, k);
    StatusCaused(env, st[k], es[k], st[k + 1], c);
  }

  /* Nothing is applied that nobody scheduled */

  ghost predicate WasScheduled(es: seq<Event>, n: nat, c: ChangeId)
    requires n <= |es|
  {
    exists k :: 0 <= k < n && es[k] == Schedule(c)
  }

  ghost predicate AllScheduled(es: seq<Event>, n: nat, cs: seq<ChangeId>)
    requires n <= |es|
  {
    forall i :: 0 <= i < |cs| ==> WasScheduled(es, n, cs[i])
  }

  lemma ScheduledLater(es: seq<Event>, n: nat, cs: seq<ChangeId>)
    requires n < |es| && AllScheduled(es, n, cs)
    ensures AllScheduled(es, n + 1, cs)
  {
    forall i | 0 <= i < |cs| ensures WasScheduled(es, n + 1, cs[i]) {
      assert WasScheduled(es, n, cs[i]);
    }
  }

  /** Whatever is past its draft without being cancelled, and whatever a job is about, was scheduled. */
  ghost predicate ScheduledInv(s: State, es: seq<Event>, n: nat)
    requires n <= |es|
  {
    && (forall c :: c in s.rows && s.rows[c].status != Draft && s.rows[c].status != Cancelled ==> WasScheduled(es, n, c))
    && (forall j :: j in s.jobs ==> AllScheduled(es, n, s.jobs[j].todo))
    && (forall i :: 0 <= i < |s.log| ==> AllScheduled(es, n, s.log[i].changes))
  }

  lemma RowScheduled(env: Setting, s: State, es: seq<Event>, n: nat, t: State, c: ChangeId)
    requires n < |es| && ScheduledInv(s, es, n) && TodosInv(s) && ReadsInv(env, s)
    requires Do(env, s, es[n]) == Some(t) && c in t.rows && t.rows[c].status != Draft && t.rows[c].status != Cancelled
    ensures WasScheduled(es, n + 1, c)
  {
    var e := es[n];
    if c in s.rows {
      StatusCaused(env, s, e, t, c);
      if t.rows[c].status == s.rows[c].status {
        assert WasScheduled(es, n, c);
      } else if e.Schedule? {
        assert es[n] == Schedule(c);
      } else {
        JobScheduled(s, es, n, e.job, c);
      }
    } else {
      NewRow(env, s, e, t, c);
    }
  }

  /** A row that a committing job moves is one it is about. */
  lemma JobScheduled(s: State, es: seq<Event>, n: nat, j: JobId, c: ChangeId)
    requires n <= |es| && ScheduledInv(s, es, n) && TodosInv(s) && j in s.jobs
    requires c in s.jobs[j].todo || (s.jobs[j].work == Sweep(c) && s.jobs[j].phase == Locked)
    ensures WasScheduled(es, n, c)
  {
    assert AllScheduled(es, n, s.jobs[j].todo) && TodoInv(s.rows, s.jobs[j]);
    assert c in s.jobs[j].todo;
  }

  lemma NewRow(env: Setting, s: State, e: Event, t: State, c: ChangeId)
    requires Do(env, s, e) == Some(t) && TodosInv(s) && c in t.rows && c !in s.rows
    ensures t.rows[c].status == Draft
  {
    if JobEvent(e) {
      JobEventTodos(env, s, e, t);
    } else if e.Commit? {
      CommitRowsSame(env, s, e.job, e.outcome, t, c);
    }
  }

  lemma CommitRowsSame(env: Setting, s: State, j: JobId, outcome: seq<Status>, t: State, c: ChangeId)
    requires Do(env, s, Commit(j, outcome)) == Some(t) && TodosInv(s)
    ensures c in t.rows <==> c in s.rows
  {
    CommitShape(env, s, j, outcome, t);
    var job := s.jobs[j];
    assert TodoInv(s.rows, job);
    if ConfigJob(job.work) {
      SettleAt(s.rows, job.todo, outcome, SnapshotOf(j, job), c);
    }
  }

  /** What a job is about is what it was about, or scheduled rows it loads. */
  lemma JobTodoScheduled(env: Setting, s: State, es: seq<Event>, n: nat, t: State, j: JobId)
    requires n < |es| && ScheduledInv(s, es, n) && TodosInv(s) && Do(env, s, es[n]) == Some(t) && j in t.jobs
    ensures AllScheduled(es, n, t.jobs[j].todo)
  {
    var e := es[n];
    if e.Commit? {
      CommitShape(env, s, e.job, e.outcome, t);
    } else if e.Enqueue? {
      EnqueueShape(env, s, e.job, e.work, e.device, t);
      if j == e.job {
        assert t.jobs[j].todo == [];
      }
    } else if e.Load? && e.job == j {
      LoadedScheduled(env, s, es, n, t, j);
    } else if e.Load? {
      LoadShape(env, s, e.job, t);
    } else if JobEvent(e) {
      JobAdvances(env, s, e, t);
    }
    assert j in s.jobs && t.jobs[j].todo == s.jobs[j].todo ==> AllScheduled(es, n, s.jobs[j].todo);
  }

  lemma LoadedScheduled(env: Setting, s: State, es: seq<Event>, n: nat, t: State, j: JobId)
    requires n <= |es| && ScheduledInv(s, es, n) && Do(env, s, Load(j)) == Some(t)
    ensures j in t.jobs && AllScheduled(es, n, t.jobs[j].todo)
  {
    LoadShape(env, s, j, t);
    var todo := ScheduledOf(s.rows, Members(s.jobs[j].work));
    if t.jobs[j].todo == s.jobs[j].todo {
      assert AllScheduled(es, n, s.jobs[j].todo);
    } else {
      forall i | 0 <= i < |todo| ensures WasScheduled(es, n, todo[i]) {
        var k := ScheduledOfMember(s.rows, Members(s.jobs[j].work), i);
      }
    }
  }

  lemma LogScheduled(env: Setting, s: State, es: seq<Event>, n: nat, t: State, i: nat)
    requires n < |es| && ScheduledInv(s, es, n) && Do(env, s, es[n]) == Some(t) && i < |t.log|
    ensures AllScheduled(es, n, t.log[i].changes)
  {
    var e := es[n];
    if e.Write? {
      WriteReaches(env, s, e.job, e.config, t, 0);
      assert AllScheduled(es, n, s.jobs[e.job].todo);
    } else {
      OtherFields(env, s, e, t);
    }
  }

  lemma {:induction false} ScheduledFirst(env: Setting, st: seq<State>, es: seq<Event>, n: nat)
    requires Trace(env, st, es) && n <= |es|
    ensures ScheduledInv(st[n], es, n)
    decreases n
  {
    if n > 0 {
      assert StepAt(env, st, es, n - 1);
      ScheduledFirst(env, st, es, n - 1);
      TodosHold(env, st, es, n - 1);
      ReadsHold(env, st, es, n - 1);
      ScheduledStep(env, st[n - 1], es, n - 1, st[n]);
    }
  }

  lemma ScheduledStep(env: Setting, s: State, es: seq<Event>, n: nat, t: State)
    requires n < |es| && ScheduledInv(s, es, n) && TodosInv(s) && ReadsInv(env, s) && Do(env, s, es[n]) == Some(t)
    ensures ScheduledInv(t, es, n + 1)
  {
    forall c | c in t.rows && t.rows[c].status != Draft && t.rows[c].status != Cancelled ensures WasScheduled(es, n + 1, c) {
      RowScheduled(env, s, es, n, t, c);
    }
    forall j | j in t.jobs ensures AllScheduled(es, n + 1, t.jobs[j].todo) {
      JobTodoScheduled(env, s, es, n, t, j);
      ScheduledLater(es, n, t.jobs[j].todo);
    }
    forall i | 0 <= i < |t.log| ensures AllScheduled(es, n + 1, t.log[i].changes) {
      LogScheduled(env, s, es, n, t, i);
      ScheduledLater(es, n, t.log[i].changes);
    }
  }

  /** In every run whatever is applied, and every change a live write is about, was scheduled before. */
  lemma NothingUnscheduled(env: Setting, st: seq<State>, es: seq<Event>, n: nat, c: ChangeId)
    requires Trace(env, st, es) && n <= |es|
    requires (c in st[n].rows && st[n].rows[c].status == Applied)
          || exists i :: 0 <= i < |st[n].log| && c in st[n].log[i].changes
    ensures exists k :: 0 <= k < n && es[k] == Schedule(c)
  {
    ScheduledFirst(env, st, es, n);
    if !(c in st[n].rows && st[n].rows[c].status == Applied) {
      var i :| 0 <= i < |st[n].log| && c in st[n].log[i].changes;
      assert AllScheduled(es, n, st[n].log[i].changes);
    }
    assert WasScheduled(es, n, c);
  }
}

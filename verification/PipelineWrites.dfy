/** What the pipeline's interleavings write to the devices: which writes have a stored rollback snapshot,
    and when one change is written by two jobs. */
module PipelineWrites {
  import opened Strings
  import opened ConfigTree
  import opened Pipeline
  import opened PipelineRows

  /* What a step does to the jobs */

  /** Jobs stay, and those that are over stay as they are. */
  ghost predicate JobsKept(s: State, t: State) {
    forall i :: i in s.jobs ==> i in t.jobs && (s.jobs[i].phase == Over ==> t.jobs[i] == s.jobs[i])
  }

  lemma JobsStep(env: Setting, s: State, e: Event, t: State)
    requires Do(env, s, e) == Some(t)
    ensures JobsKept(s, t)
  {
    if e.Commit? {
      CommitShape(env, s, e.job, e.outcome, t);
    } else if e.Enqueue? {
      EnqueueShape(env, s, e.job, e.work, e.device, t);
    } else if e.Load? {
      LoadShape(env, s, e.job, t);
    } else if JobEvent(e) {
      JobAdvances(env, s, e, t);
    }
  }

  lemma OtherFields(env: Setting, s: State, e: Event, t: State)
    requires Do(env, s, e) == Some(t)
    ensures !e.Commit? ==> t.snapshots == s.snapshots
    ensures !e.Write? ==> t.log == s.log
  {
  }

  /* Finished rows stay finished, with whatever status */

  ghost predicate TerminalKept(a: Rows, b: Rows) {
    forall c :: c in a && Terminal(a[c].status) ==> c in b && Terminal(b[c].status)
  }

  /** A committing config job finishes every row it is about, and keeps the snapshot it saved in them. */
  lemma CommitSettles(env: Setting, s: State, j: JobId, outcome: seq<Status>, t: State)
    requires Do(env, s, Commit(j, outcome)) == Some(t) && TodoInv(s.rows, s.jobs[j])
    ensures TerminalKept(s.rows, t.rows)
    ensures ConfigJob(s.jobs[j].work) ==> forall c :: c in s.jobs[j].todo ==> c in t.rows && Terminal(t.rows[c].status)
    ensures ConfigJob(s.jobs[j].work) && s.jobs[j].saved.Some? ==>
              forall c :: c in s.jobs[j].todo ==> c in t.rows && t.rows[c].snapshot == Some(j)
  {
    var job := s.jobs[j];
    if ConfigJob(job.work) {
      forall c | c in s.rows
        ensures c in t.rows && (Terminal(s.rows[c].status) ==> Terminal(t.rows[c].status))
        ensures c in job.todo ==> Terminal(t.rows[c].status) && (job.saved.Some? ==> t.rows[c].snapshot == Some(j))
      {
        SettleAt(s.rows, job.todo, outcome, SnapshotOf(j, job), c);
        if c in job.todo {
          var i :| 0 <= i < |job.todo| && job.todo[i] == c;
          assert Terminal(outcome[i]);
        }
      }
    }
  }

  lemma TerminalStep(env: Setting, s: State, e: Event, t: State)
    requires TodosInv(s) && Do(env, s, e) == Some(t)
    ensures TerminalKept(s.rows, t.rows)
  {
    if e.Commit? {
      CommitShape(env, s, e.job, e.outcome, t);
      CommitSettles(env, s, e.job, e.outcome, t);
    } else if JobEvent(e) {
      JobEventTodos(env, s, e, t);
    }
  }

  /* Rollback snapshots */

  /** The snapshot table holds exactly the snapshots of committed jobs; a committed config job has finished
      its rows. */
  ghost predicate JobInv(rows: Rows, snapshots: map<JobId, Config>, j: JobId, job: Job) {
    && (job.committed ==> job.phase == Over)
    && (j in snapshots <==> job.committed && job.saved.Some?)
    && (j in snapshots ==> snapshots[j] == job.saved.value)
    && (job.committed && ConfigJob(job.work) ==> forall c :: c in job.todo ==> c in rows && Terminal(rows[c].status))
  }

  ghost predicate JobsInv(s: State) {
    forall j :: j in s.jobs ==> JobInv(s.rows, s.snapshots, j, s.jobs[j])
  }

  lemma JobInvKept(a: Rows, b: Rows, snapshots: map<JobId, Config>, j: JobId, job: Job)
    requires JobInv(a, snapshots, j, job) && TerminalKept(a, b)
    ensures JobInv(b, snapshots, j, job)
  {
  }

  lemma JobsInvCommit(env: Setting, s: State, j: JobId, outcome: seq<Status>, t: State)
    requires JobsInv(s) && TodosInv(s) && Do(env, s, Commit(j, outcome)) == Some(t)
    ensures JobsInv(t)
  {
    CommitShape(env, s, j, outcome, t);
    assert TodoInv(s.rows, s.jobs[j]);
    CommitSettles(env, s, j, outcome, t);
    forall i | i in t.jobs ensures JobInv(t.rows, t.snapshots, i, t.jobs[i]) {
      if i != j {
        JobInvKept(s.rows, t.rows, s.snapshots, i, s.jobs[i]);
      }
    }
  }

  /** A job event leaves its job uncommitted. */
  lemma JobsInvEvent(env: Setting, s: State, e: Event, t: State)
    requires JobsInv(s) && TodosInv(s) && JobEvent(e) && Do(env, s, e) == Some(t)
    requires forall j :: j in s.snapshots ==> j in s.jobs
    ensures JobsInv(t)
  {
    OtherFields(env, s, e, t);
    if e.Enqueue? {
      EnqueueShape(env, s, e.job, e.work, e.device, t);
    } else if e.Load? {
      LoadShape(env, s, e.job, t);
      assert JobInv(s.rows, s.snapshots, e.job, s.jobs[e.job]);
    } else {
      JobAdvances(env, s, e, t);
      assert JobInv(s.rows, s.snapshots, e.job, s.jobs[e.job]);
    }
  }

  lemma JobsInvStep(env: Setting, s: State, e: Event, t: State)
    requires JobsInv(s) && TodosInv(s) && Do(env, s, e) == Some(t)
    requires forall j :: j in s.snapshots ==> j in s.jobs
    ensures JobsInv(t) && forall j :: j in t.snapshots ==> j in t.jobs
  {
    JobsStep(env, s, e, t);
    OtherFields(env, s, e, t);
    if e.Commit? {
      JobsInvCommit(env, s, e.job, e.outcome, t);
      CommitShape(env, s, e.job, e.outcome, t);
    } else if JobEvent(e) {
      JobsInvEvent(env, s, e, t);
    } else {
      TerminalStep(env, s, e, t);
      forall i | i in t.jobs ensures JobInv(t.rows, t.snapshots, i, t.jobs[i]) {
        JobInvKept(s.rows, t.rows, s.snapshots, i, s.jobs[i]);
      }
    }
  }

  lemma {:induction false} JobsHold(env: Setting, st: seq<State>, es: seq<Event>, n: nat)
    requires Trace(env, st, es) && n <= |es|
    ensures var t := st[n]; JobsInv(t) && forall j :: j in t.snapshots ==> j in t.jobs
    decreases n
  {
    if n > 0 {
      assert StepAt(env, st, es, n - 1);
      JobsHold(env, st, es, n - 1);
      TodosHold(env, st, es, n - 1);
      JobsInvStep(env, st[n - 1], es[n - 1], st[n]);
    }
  }

  /** A job that commits after saving leaves, in every change it settles, exactly the configuration it read
      under the lock as rollback snapshot. */
  lemma CommitKeepsRollback(env: Setting, st: seq<State>, es: seq<Event>, n: nat, c: ChangeId)
    requires Trace(env, st, es) && n < |es| && es[n].Commit? && es[n].job in st[n].jobs
    requires var job := st[n].jobs[es[n].job]; job.phase == Saved && c in job.todo
    ensures var job, u := st[n].jobs[es[n].job], st[n + 1];
            job.xml.Some? && c in u.rows && u.rows[c].snapshot == Some(es[n].job)
            && es[n].job in u.snapshots && u.snapshots[es[n].job] == job.xml.value
  {
    assert StepAt(env, st, es, n);
    TodosHold(env, st, es, n);
    ReadsHold(env, st, es, n);
    CommitShape(env, st[n], es[n].job, es[n].outcome, st[n + 1]);
    SavedCommits(env, st[n], es[n].job, es[n].outcome, st[n + 1]);
  }

  lemma SavedCommits(env: Setting, t: State, j: JobId, outcome: seq<Status>, u: State)
    requires Do(env, t, Commit(j, outcome)) == Some(u) && TodosInv(t) && ReadsInv(env, t)
    requires j in t.jobs && t.jobs[j].phase == Saved
    ensures t.jobs[j].saved == t.jobs[j].xml && t.jobs[j].saved.Some?
    ensures forall c :: c in t.jobs[j].todo ==> c in u.rows && u.rows[c].snapshot == Some(j)
  {
    assert TodoInv(t.rows, t.jobs[j]) && ReadInv(env, t.jobs[j], t.box, t.edits);
    CommitSettles(env, t, j, outcome, u);
  }

  /* The write log */

  /** What a record of the log says about its job and its rows still holds. */
  ghost predicate RecordInv(s: State, r: WriteRecord) {
    && r.job in s.jobs && r.changes == s.jobs[r.job].todo && r.saved == s.jobs[r.job].saved
    && r.device == s.jobs[r.job].device && ConfigJob(s.jobs[r.job].work)
    && (s.jobs[r.job].phase == Saved || s.jobs[r.job].phase == Over)
    && (forall c :: c in r.changes ==> c in s.rows && s.rows[c].device == r.device)
    && (r.changes != [] ==> s.rows[r.changes[0]].baseline == r.baseline)
  }

  ghost predicate RecordsInv(s: State) {
    forall i :: 0 <= i < |s.log| ==> RecordInv(s, s.log[i])
  }

  /** A job that has saved keeps what it is about. */
  ghost predicate SavedKept(s: State, t: State) {
    forall i :: i in s.jobs && (s.jobs[i].phase == Saved || s.jobs[i].phase == Over) ==>
      i in t.jobs && SavedOn(s.jobs[i], t.jobs[i])
  }

  /** A job past its save, or over, and what becomes of it. */
  predicate SavedOn(a: Job, b: Job) {
    a.phase == Saved || a.phase == Over ==>
      && (b.phase == Saved || b.phase == Over) && b.work == a.work && b.todo == a.todo && b.saved == a.saved
      && b.device == a.device
  }

  lemma SavedOne(s: State, t: State, j: JobId)
    requires j in t.jobs && t.jobs == s.jobs[j := t.jobs[j]] && (j in s.jobs ==> SavedOn(s.jobs[j], t.jobs[j]))
    ensures SavedKept(s, t)
  {
  }

  lemma SavedStep(env: Setting, s: State, e: Event, t: State)
    requires Do(env, s, e) == Some(t)
    ensures SavedKept(s, t)
  {
    if e.Commit? {
      CommitShape(env, s, e.job, e.outcome, t);
      SavedOne(s, t, e.job);
    } else if e.Enqueue? {
      EnqueueShape(env, s, e.job, e.work, e.device, t);
      SavedOne(s, t, e.job);
    } else if e.Load? {
      LoadShape(env, s, e.job, t);
      SavedOne(s, t, e.job);
    } else if JobEvent(e) {
      JobAdvances(env, s, e, t);
      SavedOne(s, t, e.job);
    }
  }

  lemma RecordKept(s: State, t: State, r: WriteRecord)
    requires RecordInv(s, r) && SavedKept(s, t) && Grows(s.rows, t.rows)
    ensures RecordInv(t, r)
  {
  }

  lemma WriteShape(env: Setting, s: State, j: JobId, config: Config, t: State)
    requires Do(env, s, Write(j, config)) == Some(t)
    ensures j in s.jobs && s.jobs[j].phase == Saved && OneJob(s, t, j) && t.jobs[j].phase == Saved && t.locks == s.locks
    ensures |t.log| == |s.log| + 1 && t.log[..|s.log|] == s.log
    ensures var r, job := t.log[|s.log|], s.jobs[j];
            && r.job == j && r.changes == job.todo && r.saved == job.saved && r.device == job.device
            && r.baseline == job.baseline && r.read == job.xml && r.rows == s.rows
  {
  }

  lemma RecordsWrite(env: Setting, s: State, j: JobId, config: Config, t: State)
    requires RecordsInv(s) && TodosInv(s) && ReadsInv(env, s) && Do(env, s, Write(j, config)) == Some(t)
    ensures RecordsInv(t)
  {
    WriteShape(env, s, j, config, t);
    SavedStep(env, s, Write(j, config), t);
    assert TodoInv(s.rows, s.jobs[j]) && ReadInv(env, s.jobs[j], s.box, s.edits);
    forall i | 0 <= i < |t.log| ensures RecordInv(t, t.log[i]) {
      if i < |s.log| {
        assert t.log[i] == s.log[i];
        RecordKept(s, t, s.log[i]);
      } else {
        WriteAdvances(env, s, j, config, t);
      }
    }
  }

  lemma RecordsStep(env: Setting, s: State, e: Event, t: State)
    requires RecordsInv(s) && TodosInv(s) && ReadsInv(env, s) && Do(env, s, e) == Some(t)
    ensures RecordsInv(t)
  {
    if e.Write? {
      RecordsWrite(env, s, e.job, e.config, t);
    } else {
      OtherFields(env, s, e, t);
      SavedStep(env, s, e, t);
      RowsStep(env, s, e, t);
      forall i | 0 <= i < |t.log| ensures RecordInv(t, t.log[i]) {
        RecordKept(s, t, s.log[i]);
      }
    }
  }

  /* Two jobs that write one change */

  /** The earlier job is over, and if it committed, the later one wrote although the change was finished
      by then. */
  ghost predicate Superseded(s: State, earlier: WriteRecord, later: WriteRecord, c: ChangeId) {
    && earlier.job in s.jobs && s.jobs[earlier.job].phase == Over
    && (s.jobs[earlier.job].committed ==> c in later.rows && later.rows[c].status != Scheduled)
  }

  ghost predicate Clash(a: WriteRecord, b: WriteRecord, c: ChangeId) {
    a.job != b.job && c in a.changes && c in b.changes
  }

  ghost predicate PairsInv(s: State) {
    forall i, k, c :: 0 <= i < k < |s.log| && Clash(s.log[i], s.log[k], c) ==> Superseded(s, s.log[i], s.log[k], c)
  }

  lemma SupersededKept(s: State, t: State, a: WriteRecord, b: WriteRecord, c: ChangeId)
    requires Superseded(s, a, b, c) && JobsKept(s, t)
    ensures Superseded(t, a, b, c)
  {
  }

  /** The lock lets a second job write only when the first is over. */
  lemma ClashOver(env: Setting, s: State, a: WriteRecord, j: JobId, c: ChangeId)
    requires LockInv(env, s.jobs, s.locks) && RecordInv(s, a) && a.job != j && c in a.changes
    requires j in s.jobs && s.jobs[j].phase == Saved && c in s.jobs[j].todo && TodoInv(s.rows, s.jobs[j])
    ensures s.jobs[a.job].phase == Over
  {
    var i :| 0 <= i < |s.jobs[j].todo| && s.jobs[j].todo[i] == c;
    assert s.jobs[a.job].device == s.jobs[j].device;
    assert Holding(s.jobs[j]) && (s.jobs[a.job].phase == Saved ==> Holding(s.jobs[a.job]));
  }

  lemma PairsWrite(env: Setting, s: State, j: JobId, config: Config, t: State)
    requires PairsInv(s) && RecordsInv(s) && TodosInv(s) && JobsInv(s) && LockInv(env, s.jobs, s.locks)
    requires Do(env, s, Write(j, config)) == Some(t)
    ensures PairsInv(t)
  {
    WriteShape(env, s, j, config, t);
    JobsStep(env, s, Write(j, config), t);
    assert TodoInv(s.rows, s.jobs[j]);
    forall i, k, c | 0 <= i < k < |t.log| && Clash(t.log[i], t.log[k], c)
      ensures Superseded(t, t.log[i], t.log[k], c)
    {
      assert t.log[i] == s.log[i];
      if k < |s.log| {
        assert t.log[k] == s.log[k];
        SupersededKept(s, t, s.log[i], s.log[k], c);
      } else {
        ClashOver(env, s, s.log[i], j, c);
        ClashSuperseded(s, s.log[i], t.log[k], c);
        SupersededKept(s, t, s.log[i], t.log[k], c);
      }
    }
  }

  lemma ClashSuperseded(s: State, a: WriteRecord, b: WriteRecord, c: ChangeId)
    requires RecordInv(s, a) && JobsInv(s) && s.jobs[a.job].phase == Over && c in a.changes && b.rows == s.rows
    ensures Superseded(s, a, b, c)
  {
    assert JobInv(s.rows, s.snapshots, a.job, s.jobs[a.job]);
  }

  lemma PairsStep(env: Setting, s: State, e: Event, t: State)
    requires PairsInv(s) && RecordsInv(s) && TodosInv(s) && JobsInv(s) && LockInv(env, s.jobs, s.locks)
    requires Do(env, s, e) == Some(t)
    ensures PairsInv(t)
  {
    if e.Write? {
      PairsWrite(env, s, e.job, e.config, t);
    } else {
      OtherFields(env, s, e, t);
      JobsStep(env, s, e, t);
      forall i, k, c | 0 <= i < k < |t.log| && Clash(t.log[i], t.log[k], c)
        ensures Superseded(t, t.log[i], t.log[k], c)
      {
        SupersededKept(s, t, s.log[i], s.log[k], c);
      }
    }
  }

  lemma {:induction false} WritesHold(env: Setting, st: seq<State>, es: seq<Event>, n: nat)
    requires Trace(env, st, es) && n <= |es|
    ensures RecordsInv(st[n]) && PairsInv(st[n])
    decreases n
  {
    if n > 0 {
      assert StepAt(env, st, es, n - 1);
      var before, after := st[n - 1], st[n];
      WritesHold(env, st, es, n - 1);
      TodosHold(env, st, es, n - 1);
      ReadsHold(env, st, es, n - 1);
      LockHolds(env, st, es, n - 1);
      JobsHold(env, st, es, n - 1);
      RecordsStep(env, before, es[n - 1], after);
      PairsStep(env, before, es[n - 1], after);
    }
  }

  /** Over every interleaving a live write has a stored rollback snapshot exactly when its job committed,
      and it is the configuration the job read under the lock. */
  lemma WriteHasSnapshotExactlyWhen(env: Setting, st: seq<State>, es: seq<Event>, n: nat, i: nat)
    requires Trace(env, st, es) && n <= |es| && i < |st[n].log|
    ensures var t := st[n];
            var r := t.log[i];
            && r.job in t.jobs && (r.job in t.snapshots <==> t.jobs[r.job].committed)
            && (r.job in t.snapshots ==> r.read == Some(t.snapshots[r.job]))
  {
    var t := st[n];
    WritesHold(env, st, es, n);
    JobsHold(env, st, es, n);
    EveryWriteJustified(env, st, es, n, i);
    assert RecordInv(t, t.log[i]) && JobInv(t.rows, t.snapshots, t.log[i].job, t.jobs[t.log[i].job]);
  }

  /** Two jobs write one change only if the earlier one is over and either did not commit, or committed and
      the later one wrote on a load from before: the change was no longer scheduled. And even then the
      later one had found the device's configuration to match the baseline of its first change, or that
      has none. */
  lemma SecondWriter(env: Setting, st: seq<State>, es: seq<Event>, n: nat, i: nat, k: nat, c: ChangeId)
    requires Trace(env, st, es) && n <= |es| && i < k < |st[n].log|
    requires Clash(st[n].log[i], st[n].log[k], c)
    ensures var t := st[n];
            var later := t.log[k];
            && Superseded(t, t.log[i], later, c) && c in t.rows && later.changes[0] in t.rows
            && later.read.Some? && Unchanged(env, t.rows[later.changes[0]].baseline, later.read.value)
  {
    var t := st[n];
    WritesHold(env, st, es, n);
    EveryWriteJustified(env, st, es, n, k);
    assert RecordInv(t, t.log[k]);
  }

  /** So if every job that wrote has committed, and none wrote a change that was no longer scheduled, each
      change was written by one job. */
  lemma OneWriter(env: Setting, st: seq<State>, es: seq<Event>, n: nat, i: nat, k: nat, c: ChangeId)
    requires Trace(env, st, es) && n <= |es| && i < k < |st[n].log|
    requires var t := st[n];
             && c in t.log[i].changes && c in t.log[k].changes
             && (t.log[i].job in t.jobs ==> t.jobs[t.log[i].job].committed)
             && (c in t.log[k].rows ==> t.log[k].rows[c].status == Scheduled)
    ensures st[n].log[i].job == st[n].log[k].job
  {
    var t := st[n];
    if t.log[i].job != t.log[k].job {
      SecondWriter(env, st, es, n, i, k, c);
    }
  }
}

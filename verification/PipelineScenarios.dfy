/** Runs of the pipeline built step by step: what is possible from every reachable state, and runs that go
    wrong. */
module PipelineScenarios {
  import opened Strings
  import opened ConfigTree
  import opened Pipeline
  import opened PipelineRows
  import opened PipelineWrites

  lemma Extend(env: Setting, before: seq<State>, past: seq<Event>, e: Event) returns (st: seq<State>, es: seq<Event>)
    requires Trace(env, before, past) && Do(env, before[|past|], e).Some?
    ensures Trace(env, st, es) && before <= st && es == past + [e] && Do(env, before[|past|], e) == Some(st[|es|])
  {
    st, es := before + [Do(env, before[|past|], e).value], past + [e];
    forall k | 0 <= k < |es| ensures StepAt(env, st, es, k) {
      if k < |past| {
        assert StepAt(env, before, past, k);
      }
    }
  }

  /** Nothing but job `j` and the locks changed. */
  ghost predicate JobOnly(t: State, u: State, j: JobId) {
    && OneJob(t, u, j) && u.log == t.log && u.snapshots == t.snapshots && u.box == t.box && u.edits == t.edits
  }

  lemma JobOnlyTwice(t: State, u: State, v: State, j: JobId)
    requires JobOnly(t, u, j) && JobOnly(u, v, j)
    ensures JobOnly(t, v, j)
  {
  }

  /* Steps of a job */

  lemma GetsLocked(env: Setting, before: seq<State>, past: seq<Event>, j: JobId) returns (st: seq<State>, es: seq<Event>)
    requires Trace(env, before, past)
    requires var t := before[|past|];
             j in t.jobs && t.jobs[j].phase == Loaded && env.keyOf(t.jobs[j].device) !in t.locks
    ensures Trace(env, st, es) && before <= st && es == past + [TryLock(j)]
    ensures var t, u := before[|past|], st[|es|];
            && JobOnly(t, u, j) && u.locks == t.locks[env.keyOf(t.jobs[j].device) := j]
            && u.jobs[j] == t.jobs[j].(phase := Locked)
  {
    st, es := Extend(env, before, past, TryLock(j));
  }

  lemma GetsRead(env: Setting, before: seq<State>, past: seq<Event>, j: JobId) returns (st: seq<State>, es: seq<Event>)
    requires Trace(env, before, past)
    requires var t := before[|past|]; j in t.jobs && t.jobs[j].phase == Locked && ConfigJob(t.jobs[j].work)
    ensures Trace(env, st, es) && before <= st && es == past + [Read(j)]
    ensures var t, u := before[|past|], st[|es|];
            && JobOnly(t, u, j) && u.locks == t.locks
            && u.jobs[j] == t.jobs[j].(phase := HasRead, xml := Some(t.box(t.jobs[j].device)),
                                       seen := t.edits(t.jobs[j].device), writes := 0)
  {
    st, es := Extend(env, before, past, Read(j));
  }

  lemma GetsCleared(env: Setting, before: seq<State>, past: seq<Event>, j: JobId) returns (st: seq<State>, es: seq<Event>)
    requires Trace(env, before, past)
    requires var t := before[|past|];
             j in t.jobs && t.jobs[j].phase == HasRead && t.jobs[j].xml.Some?
             && Unchanged(env, t.jobs[j].baseline, t.jobs[j].xml.value)
    ensures Trace(env, st, es) && before <= st && es == past + [Guard(j)]
    ensures var t, u := before[|past|], st[|es|];
            JobOnly(t, u, j) && u.locks == t.locks && u.jobs[j] == t.jobs[j].(phase := Cleared)
  {
    st, es := Extend(env, before, past, Guard(j));
  }

  lemma GetsSaved(env: Setting, before: seq<State>, past: seq<Event>, j: JobId) returns (st: seq<State>, es: seq<Event>)
    requires Trace(env, before, past)
    requires var t := before[|past|]; j in t.jobs && t.jobs[j].phase == Cleared
    ensures Trace(env, st, es) && before <= st && es == past + [Save(j)]
    ensures var t, u := before[|past|], st[|es|];
            && JobOnly(t, u, j) && u.locks == t.locks
            && u.jobs[j] == t.jobs[j].(phase := Saved, saved := t.jobs[j].xml)
  {
    st, es := Extend(env, before, past, Save(j));
  }

  /** A queued job loads the changes it finds scheduled. */
  lemma LoadsWith(env: Setting, before: seq<State>, past: seq<Event>, j: JobId, todo: seq<ChangeId>)
    returns (st: seq<State>, es: seq<Event>)
    requires Trace(env, before, past)
    requires var t := before[|past|];
             && j in t.jobs && t.jobs[j].phase == Queued && todo == ScheduledOf(t.rows, Members(t.jobs[j].work))
    ensures Trace(env, st, es) && before <= st && es == past + [Load(j)]
    ensures st[|es|] == LoadWith(before[|past|], j, todo)
  {
    st, es := Extend(env, before, past, Load(j));
  }

  /** A loaded job that the guard will let through. */
  ghost predicate CanPass(env: Setting, t: State, j: JobId) {
    && j in t.jobs && t.jobs[j].phase == Loaded && ConfigJob(t.jobs[j].work)
    && env.keyOf(t.jobs[j].device) !in t.locks && Unchanged(env, t.jobs[j].baseline, t.box(t.jobs[j].device))
  }

  /** It locks, reads and saves. */
  lemma GetsReady(env: Setting, before: seq<State>, past: seq<Event>, j: JobId) returns (st: seq<State>, es: seq<Event>)
    requires Trace(env, before, past) && CanPass(env, before[|past|], j)
    ensures Trace(env, st, es) && before <= st
    ensures var t, u := before[|past|], st[|es|];
            && JobOnly(t, u, j) && u.locks == t.locks[env.keyOf(t.jobs[j].device) := j]
            && u.jobs[j].phase == Saved && u.jobs[j].saved == u.jobs[j].xml == Some(t.box(t.jobs[j].device))
            && Advances(t.jobs[j], u.jobs[j])
  {
    var t := before[|past|];
    st, es := GetsLocked(env, before, past, j);
    var a := st[|es|];
    st, es := GetsRead(env, st, es, j);
    var b := st[|es|];
    JobOnlyTwice(t, a, b, j);
    st, es := GetsCleared(env, st, es, j);
    var c := st[|es|];
    JobOnlyTwice(t, b, c, j);
    st, es := GetsSaved(env, st, es, j);
    JobOnlyTwice(t, c, st[|es|], j);
  }

  /** The same, and the job writes. */
  lemma GetsWritten(env: Setting, before: seq<State>, past: seq<Event>, j: JobId, config: Config)
    returns (st: seq<State>, es: seq<Event>)
    requires Trace(env, before, past) && CanPass(env, before[|past|], j)
    ensures Trace(env, st, es) && before <= st
    ensures var t, u := before[|past|], st[|es|];
            && OneJob(t, u, j) && u.snapshots == t.snapshots && u.locks == t.locks[env.keyOf(t.jobs[j].device) := j]
            && u.jobs[j].phase == Saved && u.jobs[j].saved == Some(t.box(t.jobs[j].device))
            && Advances(t.jobs[j], u.jobs[j])
            && |u.log| == |t.log| + 1 && u.log[..|t.log|] == t.log
            && u.log[|t.log|].job == j && u.log[|t.log|].changes == t.jobs[j].todo
            && u.log[|t.log|].baseline == t.jobs[j].baseline && u.log[|t.log|].read == Some(t.box(t.jobs[j].device))
            && u.box(t.jobs[j].device) == config
  {
    st, es := GetsReady(env, before, past, j);
    var a := st[|es|];
    st, es := Extend(env, st, es, Write(j, config));
    WriteShape(env, a, j, config, st[|es|]);
    WriteAdvances(env, a, j, config, st[|es|]);
  }

  /** A job that saved and is about distinct changes that are stored. */
  ghost predicate CanCommit(t: State, j: JobId) {
    && j in t.jobs && t.jobs[j].phase == Saved && t.jobs[j].saved.Some? && ConfigJob(t.jobs[j].work)
    && (forall i, k :: 0 <= i < k < |t.jobs[j].todo| ==> t.jobs[j].todo[i] != t.jobs[j].todo[k])
    && (forall i :: 0 <= i < |t.jobs[j].todo| ==> t.jobs[j].todo[i] in t.rows)
  }

  /** It commits, whatever became of its changes. */
  lemma Commits(env: Setting, before: seq<State>, past: seq<Event>, j: JobId, outcome: seq<Status>)
    returns (st: seq<State>, es: seq<Event>)
    requires Trace(env, before, past) && CanCommit(before[|past|], j) && |outcome| == |before[|past|].jobs[j].todo|
    requires forall i :: 0 <= i < |outcome| ==> outcome[i] == Applied
    ensures Trace(env, st, es) && before <= st && es == past + [Commit(j, outcome)]
    ensures var t, u := before[|past|], st[|es|];
            && u.log == t.log && u.box == t.box && j in u.snapshots && u.snapshots[j] == t.jobs[j].saved.value
            && forall i :: 0 <= i < |outcome| ==>
                 t.jobs[j].todo[i] in u.rows
                 && u.rows[t.jobs[j].todo[i]] == Give(t.rows[t.jobs[j].todo[i]], Applied, Some(j))
  {
    var t := before[|past|];
    var job := t.jobs[j];
    st, es := Extend(env, before, past, Commit(j, outcome));
    var u := st[|es|];
    CommitShape(env, t, j, outcome, u);
    forall i | 0 <= i < |outcome|
      ensures job.todo[i] in u.rows && u.rows[job.todo[i]] == Give(t.rows[job.todo[i]], Applied, Some(j))
    {
      SettleAt(t.rows, job.todo, outcome, SnapshotOf(j, job), job.todo[i]);
    }
  }

  /* What is always possible */

  /** Change `c` is scheduled, its device is not locked, and `j` is a new job. */
  ghost predicate Ready(env: Setting, t: State, c: ChangeId, j: JobId) {
    && c in t.rows && t.rows[c].status == Scheduled && env.keyOf(t.rows[c].device) !in t.locks && j !in t.jobs
  }

  lemma OneScheduled(rows: Rows, c: ChangeId)
    requires c in rows && rows[c].status == Scheduled
    ensures ScheduledOf(rows, [c]) == [c]
  {
    assert [c][..0] == [];
    assert ScheduledOf(rows, []) == [];
  }

  /** A new job about one scheduled change loads it. */
  lemma GetsItsChange(env: Setting, before: seq<State>, past: seq<Event>, w: Work, c: ChangeId, j: JobId)
    returns (st: seq<State>, es: seq<Event>)
    requires Trace(env, before, past) && Ready(env, before[|past|], c, j) && (w == Apply(c) || w == Sweep(c))
    ensures var row := before[|past|].rows[c];
            && Trace(env, st, es) && before <= st && es == past + [Enqueue(j, w, row.device), Load(j)]
            && st[|es|] == before[|past|].(jobs := before[|past|].jobs[j := Job(w, row.device, Loaded, [c], row.baseline,
                                                                              row.attempts, None, None, 0, 0, false)])
  {
    var t := before[|past|];
    st, es := GetsEnqueued(env, before, past, w, c, j);
    OneScheduled(t.rows, c);
    st, es := LoadsWith(env, st, es, j, [c]);
  }

  lemma GetsEnqueued(env: Setting, before: seq<State>, past: seq<Event>, w: Work, c: ChangeId, j: JobId)
    returns (st: seq<State>, es: seq<Event>)
    requires Trace(env, before, past) && Ready(env, before[|past|], c, j) && (w == Apply(c) || w == Sweep(c))
    ensures var t := before[|past|];
            && Members(w) == [c] && Trace(env, st, es) && before <= st && es == past + [Enqueue(j, w, t.rows[c].device)]
            && st[|es|] == ToPhase(t, j, Job(w, t.rows[c].device, Queued, [], "", 0, None, None, 0, 0, false))
  {
    st, es := Extend(env, before, past, Enqueue(j, w, before[|past|].rows[c].device));
  }

  /** From every reachable state, a sweep of a scheduled change on a free device can run; it adds one to its
      attempts, or fails it when none is left, and does nothing else to the changes. */
  lemma SweepPossible(env: Setting, before: seq<State>, past: seq<Event>, c: ChangeId, j: JobId)
    returns (st: seq<State>, es: seq<Event>)
    requires Trace(env, before, past) && Ready(env, before[|past|], c, j)
    ensures Trace(env, st, es) && before <= st
    ensures var t, u, d := before[|past|], st[|es|], before[|past|].rows[c].device;
            && es == past + [Enqueue(j, Sweep(c), d), Load(j)] + [TryLock(j)] + [Commit(j, [])]
            && u.rows == t.rows[c := if t.rows[c].attempts < env.maxAttempts
                                     then t.rows[c].(attempts := t.rows[c].attempts + 1)
                                     else t.rows[c].(status := Failed, ends := t.rows[c].ends + 1)]
            && u.log == t.log
  {
    st, es := GetsItsChange(env, before, past, Sweep(c), c, j);
    st, es := GetsLocked(env, st, es, j);
    st, es := Extend(env, st, es, Commit(j, []));
  }

  /** A firmware job can take the lock of a free device; then any job that tries for the same lock ends
      without having committed; and when the firmware job commits the lock is free again. */
  lemma FirmwareLocksOut(env: Setting, before: seq<State>, past: seq<Event>, d: DeviceId, j: JobId, i: JobId)
    returns (st: seq<State>, es: seq<Event>)
    requires Trace(env, before, past) && j !in before[|past|].jobs && env.keyOf(d) !in before[|past|].locks
    requires var t := before[|past|];
             i in t.jobs && t.jobs[i].phase == Loaded && env.keyOf(t.jobs[i].device) == env.keyOf(d)
    ensures Trace(env, st, es) && before <= st
    ensures es == past + [Enqueue(j, Firmware, d)] + [Load(j)] + [TryLock(j)] + [TryLock(i)] + [Commit(j, [])]
    ensures var t, u := before[|past|], st[|es|];
            && u.locks == t.locks && j in u.jobs && u.jobs[j].committed
            && i in u.jobs && u.jobs[i] == t.jobs[i].(phase := Over) && u.rows == t.rows
  {
    var t := before[|past|];
    st, es := Extend(env, before, past, Enqueue(j, Firmware, d));
    st, es := Extend(env, st, es, Load(j));
    st, es := GetsLocked(env, st, es, j);
    LockHolds(env, before, past, |past|);
    var a := st[|es|];
    st, es := Extend(env, st, es, TryLock(i));
    NothingReleased(env, t, d, i, j, a.locks);
    var b := st[|es|];
    st, es := Extend(env, st, es, Commit(j, []));
    CommitShape(env, b, j, [], st[|es|]);
    AllReleased(env, t, d, j, b.locks);
  }

  lemma AllReleased(env: Setting, t: State, d: DeviceId, j: JobId, locks: map<int, JobId>)
    requires LockInv(env, t.jobs, t.locks) && j !in t.jobs && env.keyOf(d) !in t.locks
    requires locks == t.locks[env.keyOf(d) := j]
    ensures Release(locks, j) == t.locks
  {
    forall k | k in t.locks ensures t.locks[k] != j {
      assert t.locks[k] in t.jobs;
    }
    assert Release(locks, j).Keys == t.locks.Keys;
  }

  lemma NothingReleased(env: Setting, t: State, d: DeviceId, i: JobId, j: JobId, locks: map<int, JobId>)
    requires LockInv(env, t.jobs, t.locks) && i in t.jobs && !Holding(t.jobs[i]) && i != j
    requires locks == t.locks[env.keyOf(d) := j]
    ensures Release(locks, i) == locks
  {
    forall k | k in t.locks ensures t.locks[k] != i {
      assert Holding(t.jobs[t.locks[k]]);
    }
    assert Release(locks, i).Keys == locks.Keys;
  }

  /** From every reachable state, a scheduled change on a free device that matches its baseline can be applied
      live: the device then has the new configuration, and the change the old one as rollback snapshot. */
  lemma ApplyPossible(env: Setting, before: seq<State>, past: seq<Event>, c: ChangeId, j: JobId, config: Config)
    returns (st: seq<State>, es: seq<Event>)
    requires Trace(env, before, past) && Ready(env, before[|past|], c, j)
    requires var t := before[|past|]; Unchanged(env, t.rows[c].baseline, t.box(t.rows[c].device))
    ensures Trace(env, st, es) && before <= st
    ensures var t, u := before[|past|], st[|es|];
            && c in u.rows && u.rows[c] == Give(t.rows[c], Applied, Some(j)) && u.rows[c].status == Applied
            && j in u.snapshots && u.snapshots[j] == t.box(t.rows[c].device) && u.box(t.rows[c].device) == config
            && |u.log| == |t.log| + 1 && u.log[|t.log|].changes == [c]
  {
    var t := before[|past|];
    st, es := GetsItsChange(env, before, past, Apply(c), c, j);
    var loaded := st[|es|];
    assert loaded.log == t.log && loaded.jobs[j].todo == [c];
    st, es := GetsWritten(env, st, es, j, config);
    var a := st[|es|];
    assert a.jobs[j].todo == [c];
    st, es := Commits(env, st, es, j, [Applied]);
    assert a.jobs[j].todo[0] == c;
  }

  /* One change, two jobs */

  /** Change 0, of device 0 and without a baseline, is scheduled. */
  predicate Waiting(t: State) {
    0 in t.rows && t.rows[0] == Change(0, "", Scheduled, None, 0, 0)
  }

  predicate About(job: Job) {
    job.work == Apply(0) && job.device == 0 && job.todo == [0] && job.baseline == "" && !job.committed
  }

  lemma GetsScheduled(env: Setting, s: State) returns (st: seq<State>, es: seq<Event>)
    requires Initial(s)
    ensures Trace(env, st, es) && st[0] == s && es == [Create(0, 0, ""), Schedule(0)]
    ensures var t := st[|es|]; Waiting(t) && t.jobs == map[] && t.log == [] && t.locks == map[]
  {
    st, es := Extend(env, [s], [], Create(0, 0, ""));
    st, es := Extend(env, st, es, Schedule(0));
  }

  lemma GetsQueued(env: Setting, before: seq<State>, past: seq<Event>, j: JobId) returns (st: seq<State>, es: seq<Event>)
    requires Trace(env, before, past) && Waiting(before[|past|]) && j !in before[|past|].jobs
    ensures Trace(env, st, es) && before <= st && es == past + [Enqueue(j, Apply(0), 0)]
    ensures st[|es|] == ToPhase(before[|past|], j, Job(Apply(0), 0, Queued, [], "", 0, None, None, 0, 0, false))
  {
    st, es := Extend(env, before, past, Enqueue(j, Apply(0), 0));
  }

  lemma GetsLoaded(env: Setting, before: seq<State>, past: seq<Event>, j: JobId) returns (st: seq<State>, es: seq<Event>)
    requires Trace(env, before, past) && Waiting(before[|past|]) && j !in before[|past|].jobs
    ensures Trace(env, st, es) && before <= st && es == past + [Enqueue(j, Apply(0), 0), Load(j)]
    ensures var t, u := before[|past|], st[|es|];
            && u.log == t.log && u.locks == t.locks && OneJob(t, u, j) && About(u.jobs[j]) && u.jobs[j].phase == Loaded
  {
    st, es := GetsQueued(env, before, past, j);
    assert ScheduledOf(st[|es|].rows, [0]) == [0] by {
      assert [0][..0] == [];
    }
    st, es := LoadsWith(env, st, es, j, [0]);
  }

  lemma Crashes(env: Setting, before: seq<State>, past: seq<Event>, j: JobId) returns (st: seq<State>, es: seq<Event>)
    requires Trace(env, before, past) && Waiting(before[|past|])
    requires var t := before[|past|];
             j in t.jobs && t.jobs[j].phase == Saved && env.keyOf(0) in t.locks && t.locks[env.keyOf(0)] == j
    ensures Trace(env, st, es) && before <= st
    ensures var t, u := before[|past|], st[|es|];
            Waiting(u) && u.log == t.log && OneJob(t, u, j) && env.keyOf(0) !in u.locks
  {
    st, es := Extend(env, before, past, Crash(j));
    CrashShape(env, before[|past|], j, st[|es|]);
  }

  /** Job 0 writes the change and crashes, and the change is still scheduled. */
  lemma WritesAndCrashes(env: Setting, s: State, config: Config) returns (st: seq<State>, es: seq<Event>)
    requires Initial(s)
    ensures Trace(env, st, es) && st[0] == s
    ensures var t := st[|es|];
            && Waiting(t) && env.keyOf(0) !in t.locks && t.jobs.Keys == {0}
            && |t.log| == 1 && t.log[0].job == 0 && t.log[0].changes == [0]
  {
    st, es := GetsScheduled(env, s);
    st, es := GetsLoaded(env, st, es, 0);
    st, es := GetsWritten(env, st, es, 0, config);
    st, es := Crashes(env, st, es, 0);
  }

  /** A job that crashes after its write leaves the change scheduled; the next job writes it again, and the
      change is finished once. */
  lemma CrashedThenWrittenAgain(env: Setting, s: State, config: Config) returns (st: seq<State>, es: seq<Event>)
    requires Initial(s)
    ensures Trace(env, st, es) && st[0] == s
    ensures var t := st[|es|];
            && |t.log| == 2 && Clash(t.log[0], t.log[1], 0)
            && 0 in t.rows && t.rows[0].status == Applied && t.rows[0].ends == 1
  {
    st, es := WritesAndCrashes(env, s, config);
    st, es := GetsLoaded(env, st, es, 1);
    st, es := GetsWritten(env, st, es, 1, config);
    var c := st[|es|];
    assert c.log[0] == c.log[..1][0] && c.jobs[1].todo[0] == 0;
    st, es := Commits(env, st, es, 1, [Applied]);
  }

  /** A change cancelled after its job loaded it is written and applied all the same: final statuses are not
      absorbing in all runs. */
  lemma CancelledThenApplied(env: Setting, s: State, config: Config) returns (st: seq<State>, es: seq<Event>, m: nat)
    requires Initial(s)
    ensures Trace(env, st, es) && st[0] == s && m <= |es|
    ensures 0 in st[m].rows && st[m].rows[0].status == Cancelled
    ensures |st[|es|].log| == 1 && 0 in st[|es|].rows && st[|es|].rows[0].status == Applied
  {
    st, es := GetsScheduled(env, s);
    st, es := GetsLoaded(env, st, es, 0);
    st, es := Extend(env, st, es, Cancel(0));
    m := |es|;
    st, es := GetsWritten(env, st, es, 0, config);
    assert st[|es|].jobs[0].todo[0] == 0;
    st, es := Commits(env, st, es, 0, [Applied]);
  }

  /* A profile whose members have different baselines */

  /** Changes 0 and 1 of device 0, with baselines `a` and `b`, are scheduled. */
  predicate BothWaiting(t: State, a: string, b: string) {
    && 0 in t.rows && t.rows[0] == Change(0, a, Scheduled, None, 0, 0)
    && 1 in t.rows && t.rows[1] == Change(0, b, Scheduled, None, 0, 0)
  }

  /** Nothing but the rows changed. */
  ghost predicate RowsOnly(t: State, u: State) {
    u.jobs == t.jobs && u.locks == t.locks && u.snapshots == t.snapshots && u.log == t.log && u.box == t.box
  }

  lemma GetsOneScheduled(env: Setting, before: seq<State>, past: seq<Event>, c: ChangeId, baseline: string)
    returns (st: seq<State>, es: seq<Event>)
    requires Trace(env, before, past) && c !in before[|past|].rows
    ensures Trace(env, st, es) && before <= st && RowsOnly(before[|past|], st[|es|])
    ensures st[|es|].rows == before[|past|].rows[c := Change(0, baseline, Scheduled, None, 0, 0)]
  {
    st, es := Extend(env, before, past, Create(c, 0, baseline));
    st, es := Extend(env, st, es, Schedule(c));
  }

  lemma GetsBothScheduled(env: Setting, s: State, a: string, b: string) returns (st: seq<State>, es: seq<Event>)
    requires Initial(s)
    ensures Trace(env, st, es) && st[0] == s && BothWaiting(st[|es|], a, b) && RowsOnly(s, st[|es|])
  {
    st, es := GetsOneScheduled(env, [s], [], 0, a);
    st, es := GetsOneScheduled(env, st, es, 1, b);
  }

  predicate Both(ms: seq<ChangeId>) {
    |ms| == 2 && ms[0] == 0 && ms[1] == 1
  }

  lemma BothScheduled(rows: Rows, ms: seq<ChangeId>)
    requires 0 in rows && 1 in rows && rows[0].status == Scheduled && rows[1].status == Scheduled && Both(ms)
    ensures ScheduledOf(rows, ms) == ms
  {
    assert ms[..1][..0] == [];
    assert ScheduledOf(rows, ms[..1]) == [0];
  }

  lemma GetsProfileQueued(env: Setting, before: seq<State>, past: seq<Event>, a: string, b: string, ms: seq<ChangeId>)
    returns (st: seq<State>, es: seq<Event>)
    requires Trace(env, before, past) && BothWaiting(before[|past|], a, b) && 0 !in before[|past|].jobs && Both(ms)
    ensures Trace(env, st, es) && before <= st
    ensures st[|es|] == ToPhase(before[|past|], 0, Job(Profile(ms), 0, Queued, [], "", 0, None, None, 0, 0, false))
  {
    st, es := Extend(env, before, past, Enqueue(0, Profile(ms), 0));
  }

  lemma GetsProfileLoaded(env: Setting, before: seq<State>, past: seq<Event>, a: string, b: string, ms: seq<ChangeId>)
    returns (st: seq<State>, es: seq<Event>)
    requires Trace(env, before, past) && BothWaiting(before[|past|], a, b) && 0 !in before[|past|].jobs && Both(ms)
    ensures Trace(env, st, es) && before <= st
    ensures var t, u := before[|past|], st[|es|];
            && OneJob(t, u, 0) && u.log == t.log && u.locks == t.locks && u.box == t.box
            && u.jobs[0] == Job(Profile(ms), 0, Loaded, ms, a, 0, None, None, 0, 0, false)
  {
    st, es := GetsProfileQueued(env, before, past, a, b, ms);
    BothScheduled(st[|es|].rows, ms);
    st, es := LoadsWith(env, st, es, 0, ms);
  }

  /** A device with configuration `x`, which passes the guard of baseline `a`: a profile of a change with
      that baseline and one with baseline `b` is written and applied, and `x` is the rollback snapshot of
      both. */
  lemma MixedProfileRuns(env: Setting, s: State, a: string, b: string, x: Config) returns (st: seq<State>, es: seq<Event>)
    requires Initial(s) && s.box(0) == x && Unchanged(env, a, x)
    ensures Trace(env, st, es) && st[0] == s
    ensures var t := st[|es|];
            && |t.log| == 1 && t.log[0].changes == [0, 1] && t.log[0].baseline == a && t.log[0].read == Some(x)
            && 1 in t.rows && t.rows[1] == Change(0, b, Applied, Some(0), 0, 1)
            && 0 in t.rows && t.rows[0].baseline == a && 0 in t.snapshots && t.snapshots[0] == x
  {
    st, es := GetsBothScheduled(env, s, a, b);
    st, es := GetsProfileLoaded(env, st, es, a, b, [0, 1]);
    st, es := GetsWritten(env, st, es, 0, x);
    var w := st[|es|];
    assert w.jobs[0].todo == [0, 1] && w.jobs[0].todo[0] == 0 && w.jobs[0].todo[1] == 1;
    st, es := Commits(env, st, es, 0, [Applied, Applied]);
  }
}

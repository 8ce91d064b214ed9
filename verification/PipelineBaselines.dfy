/** The pipeline's guard looks at the baseline of a job's first change only. What that means for the others. */
module PipelineBaselines {
  import opened Strings
  import opened ConfigTree
  import opened Pipeline
  import opened PipelineRows
  import opened PipelineWrites
  import opened PipelineScenarios

  /* One configuration */

  /** For a configuration `x` that passed the guard of `first`: whether it also respects `own`. */
  predicate Respects(env: Setting, first: string, own: string, x: Config) {
    own == "" || (if first == "" then env.hash(x) == own else own == first)
  }

  lemma RespectsExactlyWhen(env: Setting, first: string, own: string, x: Config)
    requires Unchanged(env, first, x)
    ensures Unchanged(env, own, x) <==> Respects(env, first, own, x)
  {
  }

  /** Over every interleaving, a write respects the baseline of each change it is about exactly when that
      is empty, or is the baseline of the job's first change, or the first has none and the configuration
      read happens to match. */
  lemma WriteRespectsExactlyWhen(env: Setting, st: seq<State>, es: seq<Event>, n: nat, i: nat, c: ChangeId)
    requires Trace(env, st, es) && n <= |es| && i < |st[n].log|
    requires c in st[n].log[i].changes
    ensures var t := st[n];
            var r := t.log[i];
            && c in t.rows && r.changes[0] in t.rows && r.read.Some?
            && (Unchanged(env, t.rows[c].baseline, r.read.value)
                <==> Respects(env, t.rows[r.changes[0]].baseline, t.rows[c].baseline, r.read.value))
  {
    var t := st[n];
    WritesHold(env, st, es, n);
    EveryWriteJustified(env, st, es, n, i);
    assert RecordInv(t, t.log[i]);
    RespectsExactlyWhen(env, t.rows[t.log[i].changes[0]].baseline, t.rows[c].baseline, t.log[i].read.value);
  }

  /* Stored snapshots */

  /** A stored snapshot passed the guard of its job's first change. */
  ghost predicate KeptInv(env: Setting, s: State, j: JobId) {
    j in s.snapshots && j in s.jobs ==>
      && s.jobs[j].phase == Over && Unchanged(env, s.jobs[j].baseline, s.snapshots[j])
      && s.jobs[j].todo != [] && s.jobs[j].todo[0] in s.rows && s.rows[s.jobs[j].todo[0]].baseline == s.jobs[j].baseline
  }

  /** A change refers to a stored snapshot of a job that was about it. */
  ghost predicate RefersInv(s: State, c: ChangeId) {
    c in s.rows && s.rows[c].snapshot.Some? ==>
      var j := s.rows[c].snapshot.value;
      j in s.snapshots && j in s.jobs && s.jobs[j].phase == Over && c in s.jobs[j].todo
  }

  ghost predicate RollbackInv(env: Setting, s: State) {
    (forall j :: j in s.snapshots ==> KeptInv(env, s, j)) && (forall c :: c in s.rows ==> RefersInv(s, c))
  }

  /** Snapshots, rows and finished jobs are kept. */
  ghost predicate Keeps(s: State, t: State) {
    && Grows(s.rows, t.rows) && JobsKept(s, t)
    && (forall j :: j in s.snapshots && j in s.jobs && s.jobs[j].phase == Over ==>
          j in t.snapshots && t.snapshots[j] == s.snapshots[j])
  }

  lemma KeptStays(env: Setting, s: State, t: State, j: JobId)
    requires KeptInv(env, s, j) && j in s.snapshots && j in s.jobs && Keeps(s, t)
    ensures KeptInv(env, t, j)
  {
  }

  lemma RefersStays(s: State, t: State, c: ChangeId)
    requires RefersInv(s, c) && c in s.rows && c in t.rows && t.rows[c].snapshot == s.rows[c].snapshot && Keeps(s, t)
    ensures RefersInv(t, c)
  {
  }

  /** The reference of a row changes only in a commit. */
  lemma SnapshotStays(env: Setting, s: State, e: Event, t: State, c: ChangeId)
    requires TodosInv(s) && Do(env, s, e) == Some(t) && !e.Commit? && c in t.rows
    ensures t.rows[c].snapshot == if c in s.rows then s.rows[c].snapshot else None
  {
    if JobEvent(e) {
      JobEventTodos(env, s, e, t);
    }
  }

  lemma QuietRollback(env: Setting, s: State, e: Event, t: State)
    requires RollbackInv(env, s) && TodosInv(s) && Do(env, s, e) == Some(t) && !e.Commit?
    requires forall j :: j in s.snapshots ==> j in s.jobs
    ensures RollbackInv(env, t)
  {
    JobsStep(env, s, e, t);
    OtherFields(env, s, e, t);
    RowsStep(env, s, e, t);
    forall j | j in t.snapshots ensures KeptInv(env, t, j) {
      KeptStays(env, s, t, j);
    }
    forall c | c in t.rows ensures RefersInv(t, c) {
      SnapshotStays(env, s, e, t, c);
      if c in s.rows {
        RefersStays(s, t, c);
      }
    }
  }

  /** What a commit does to one row's reference. */
  lemma CommitRefers(env: Setting, s: State, j: JobId, outcome: seq<Status>, t: State, c: ChangeId)
    requires TodosInv(s) && Do(env, s, Commit(j, outcome)) == Some(t) && c in t.rows
    ensures j in s.jobs && c in s.rows
    ensures t.rows[c].snapshot == s.rows[c].snapshot
         || (c in s.jobs[j].todo && s.jobs[j].saved.Some? && t.rows[c].snapshot == Some(j))
  {
    CommitShape(env, s, j, outcome, t);
    var job := s.jobs[j];
    assert TodoInv(s.rows, job);
    if ConfigJob(job.work) {
      SettleAt(s.rows, job.todo, outcome, SnapshotOf(j, job), c);
      if c in job.todo {
        var i :| 0 <= i < |job.todo| && job.todo[i] == c;
      }
    }
  }

  lemma CommitKeeps(env: Setting, s: State, j: JobId, outcome: seq<Status>, t: State)
    requires TodosInv(s) && Do(env, s, Commit(j, outcome)) == Some(t)
    ensures Keeps(s, t)
  {
    JobsStep(env, s, Commit(j, outcome), t);
    CommitShape(env, s, j, outcome, t);
    RowsStep(env, s, Commit(j, outcome), t);
  }

  /** The snapshot a commit stores. */
  lemma CommitStores(env: Setting, s: State, j: JobId, outcome: seq<Status>, t: State)
    requires TodosInv(s) && ReadsInv(env, s) && Do(env, s, Commit(j, outcome)) == Some(t)
    requires j in s.jobs && s.jobs[j].saved.Some?
    ensures j in t.snapshots && KeptInv(env, t, j)
  {
    CommitShape(env, s, j, outcome, t);
    RowsStep(env, s, Commit(j, outcome), t);
    assert TodoInv(s.rows, s.jobs[j]) && ReadInv(env, s.jobs[j], s.box, s.edits);
  }

  lemma CommitRollback(env: Setting, s: State, j: JobId, outcome: seq<Status>, t: State)
    requires RollbackInv(env, s) && TodosInv(s) && ReadsInv(env, s) && Do(env, s, Commit(j, outcome)) == Some(t)
    requires forall i :: i in s.snapshots ==> i in s.jobs
    ensures RollbackInv(env, t)
  {
    CommitShape(env, s, j, outcome, t);
    CommitKeeps(env, s, j, outcome, t);
    forall i | i in t.snapshots ensures KeptInv(env, t, i) {
      if i == j {
        if s.jobs[j].saved.Some? {
          CommitStores(env, s, j, outcome, t);
        } else {
          KeptStays(env, s, t, i);
        }
      } else {
        KeptStays(env, s, t, i);
      }
    }
    forall c | c in t.rows ensures RefersInv(t, c) {
      CommitRefers(env, s, j, outcome, t, c);
      if t.rows[c].snapshot == s.rows[c].snapshot {
        RefersStays(s, t, c);
      }
    }
  }

  lemma {:induction false} RollbacksHold(env: Setting, st: seq<State>, es: seq<Event>, n: nat)
    requires Trace(env, st, es) && n <= |es|
    ensures RollbackInv(env, st[n])
    decreases n
  {
    if n > 0 {
      assert StepAt(env, st, es, n - 1);
      var before, after := st[n - 1], st[n];
      RollbacksHold(env, st, es, n - 1);
      TodosHold(env, st, es, n - 1);
      ReadsHold(env, st, es, n - 1);
      JobsHold(env, st, es, n - 1);
      RollbackStep(env, before, es[n - 1], after);
    }
  }

  lemma RollbackStep(env: Setting, s: State, e: Event, t: State)
    requires RollbackInv(env, s) && TodosInv(s) && ReadsInv(env, s) && Do(env, s, e) == Some(t)
    requires forall i :: i in s.snapshots ==> i in s.jobs
    ensures RollbackInv(env, t)
  {
    if e.Commit? {
      CommitRollback(env, s, e.job, e.outcome, t);
    } else {
      QuietRollback(env, s, e, t);
    }
  }

  /** In every reachable state, the rollback snapshot of a change matched the baseline of the first change
      of the job that stored it, and matches the change's own baseline exactly when it respects it. */
  lemma SnapshotMatchesExactlyWhen(env: Setting, st: seq<State>, es: seq<Event>, n: nat, c: ChangeId)
    requires Trace(env, st, es) && n <= |es|
    requires var t := st[n]; c in t.rows && t.rows[c].snapshot.Some?
    ensures var t := st[n];
            var j := t.rows[c].snapshot.value;
            && j in t.snapshots && j in t.jobs && c in t.jobs[j].todo && t.jobs[j].todo[0] in t.rows
            && (var first := t.rows[t.jobs[j].todo[0]].baseline;
                && Unchanged(env, first, t.snapshots[j])
                && (Unchanged(env, t.rows[c].baseline, t.snapshots[j])
                    <==> Respects(env, first, t.rows[c].baseline, t.snapshots[j])))
  {
    var t := st[n];
    RollbacksHold(env, st, es, n);
    assert RefersInv(t, c);
    var j := t.rows[c].snapshot.value;
    assert KeptInv(env, t, j);
    RespectsExactlyWhen(env, t.jobs[j].baseline, t.rows[c].baseline, t.snapshots[j]);
  }

  /* All runs */

  /** The `i`-th write of the run is about change `c` with baseline `own`, in a job whose first change has
      baseline `first`, and was made on reading `x`. */
  ghost predicate WritesFor(env: Setting, st: seq<State>, es: seq<Event>, i: nat, c: ChangeId, first: string, own: string, x: Config) {
    Trace(env, st, es) &&
    var t := st[|es|];
    i < |t.log| && c in t.log[i].changes && c in t.rows && t.rows[c].baseline == own
    && t.log[i].changes[0] in t.rows && t.rows[t.log[i].changes[0]].baseline == first && t.log[i].read == Some(x)
  }

  /** In every run, every write of a job whose first change has baseline `first` respects the baseline
      `own` of every change it is about that has it. */
  ghost predicate AlwaysRespected(env: Setting, first: string, own: string) {
    forall st: seq<State>, es: seq<Event>, i: nat, c, x :: WritesFor(env, st, es, i, c, first, own, x) ==> Unchanged(env, own, x)
  }

  lemma AlwaysRespectedIf(env: Setting, first: string, own: string)
    requires own == "" || own == first
    ensures AlwaysRespected(env, first, own)
  {
    forall st: seq<State>, es: seq<Event>, i: nat, c, x | WritesFor(env, st, es, i, c, first, own, x) ensures Unchanged(env, own, x) {
      EveryWriteJustified(env, st, es, |es|, i);
      WritesHold(env, st, es, |es|);
      assert RecordInv(st[|es|], st[|es|].log[i]);
    }
  }

  /** Whenever a configuration passes one baseline and not the other, there is a run in which a profile of
      two such changes is written and applied over it, and it becomes the second one's rollback snapshot. */
  lemma MixedProfileClobbers(env: Setting, first: string, own: string, x: Config)
    returns (st: seq<State>, es: seq<Event>)
    requires Unchanged(env, first, x) && !Unchanged(env, own, x)
    ensures WritesFor(env, st, es, 0, 1, first, own, x)
    ensures var t := st[|es|];
            && t.rows[1].status == Applied && t.rows[1].snapshot == Some(0)
            && 0 in t.snapshots && t.snapshots[0] == x
  {
    var s := State(map[], map[], map[], map[], (d: DeviceId) => x, (d: DeviceId) => 0, []);
    st, es := MixedProfileRuns(env, s, first, own, x);
    assert st[|es|].log[0].changes[1] == 1 && st[|es|].log[0].changes[0] == 0;
  }

  /** The first change's baseline was taken from some configuration, and the hash is not constant. */
  ghost predicate Telling(env: Setting, first: string) {
    (first != "" ==> exists x :: env.hash(x) == first) && exists x, y :: env.hash(x) != env.hash(y)
  }

  /** The guard respects a change's own baseline in every run exactly when that is empty or the baseline of
      the job's first scheduled change. */
  lemma RespectedExactlyWhen(env: Setting, first: string, own: string)
    requires Telling(env, first)
    ensures AlwaysRespected(env, first, own) <==> own == "" || own == first
  {
    if own == "" || own == first {
      AlwaysRespectedIf(env, first, own);
    } else {
      var x := PassesOnlyFirst(env, first, own);
      var st, es := MixedProfileClobbers(env, first, own, x);
    }
  }

  lemma PassesOnlyFirst(env: Setting, first: string, own: string) returns (x: Config)
    requires Telling(env, first) && own != "" && own != first
    ensures Unchanged(env, first, x) && !Unchanged(env, own, x)
  {
    if first != "" {
      x :| env.hash(x) == first;
    } else {
      var y, z :| env.hash(y) != env.hash(z);
      x := if env.hash(y) != own then y else z;
    }
  }
}

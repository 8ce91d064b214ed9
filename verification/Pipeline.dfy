/** The config-change pipeline as a transition system: jobs that load rows, try a per-device advisory
    lock, read the device, check the baseline and write, interleaved with each other, with API calls
    and with edits made on the device itself. A job's row updates, its snapshot and its lock belong to
    one transaction: they appear, and the lock is released, when the job commits. */
module Pipeline {
  import opened Strings
  import opened ConfigTree

  type DeviceId = nat
  type ChangeId = nat
  type JobId = nat
  type Config = Element

  /** What does not change during a run: the lock key derived from a device (two devices may share
      one), the canonical hash, and the sweeper's limit. */
  datatype Setting = Setting(keyOf: DeviceId -> int, hash: Config -> string, maxAttempts: nat)

  datatype Status = Draft | Scheduled | Applied | Failed | Conflict | Cancelled

  predicate Terminal(s: Status) {
    s != Draft && s != Scheduled
  }

  /** A stored change. `snapshot` refers to the rollback snapshot by the job that stored it; `ends` counts
      how often the change was given a final status. */
  datatype Change = Change(device: DeviceId, baseline: string, status: Status, snapshot: Option<JobId>,
                           attempts: nat, ends: nat)

  datatype Work = Apply(change: ChangeId) | Profile(members: seq<ChangeId>) | Firmware | Sweep(change: ChangeId)

  datatype Phase =
    | Queued
    | Loaded   // rows loaded and found scheduled
    | Locked   // holds the device lock
    | HasRead  // read the live configuration
    | Cleared  // it matches the baseline, or there is none
    | Saved    // stored it as the rollback snapshot; live writes follow
    | Over

  /** `todo` are the scheduled members, `baseline` that of the first of them and `attempts` the sweep
      counter, as loaded; `xml` is the
      configuration read, `seen` the number of edits made on the device up to that reading, `writes` the
      number of writes made since; a job that is over was `committed` or not. */
  datatype Job = Job(work: Work, device: DeviceId, phase: Phase, todo: seq<ChangeId>, baseline: string, attempts: nat,
                     xml: Option<Config>, saved: Option<Config>, seen: int, writes: nat, committed: bool)

  /** A live write, with what the system looked like when it was made: `changes` are those the job is
      about, `rows` the stored changes. */
  datatype WriteRecord = WriteRecord(job: JobId, device: DeviceId, changes: seq<ChangeId>, holder: Option<JobId>,
                                     baseline: string, read: Option<Config>, saved: Option<Config>, first: bool,
                                     undisturbed: bool, rows: map<ChangeId, Change>, replaced: Config)

  /** `snapshots` is the table of rollback snapshots, by the job that stored them. */
  datatype State = State(
    rows: map<ChangeId, Change>,
    jobs: map<JobId, Job>,
    locks: map<int, JobId>,
    snapshots: map<JobId, Config>,
    box: DeviceId -> Config,
    edits: DeviceId -> int,
    log: seq<WriteRecord>)

  datatype Event =
    | Create(change: ChangeId, device: DeviceId, baseline: string)
    | Schedule(change: ChangeId)
    | Cancel(change: ChangeId)
    | Enqueue(job: JobId, work: Work, device: DeviceId)
    | Load(job: JobId)
    | TryLock(job: JobId)
    | Read(job: JobId)
    | Guard(job: JobId)
    | Save(job: JobId)
    | Write(job: JobId, config: Config)
    | Commit(job: JobId, outcome: seq<Status>)
    | Crash(job: JobId)
    | Edit(device: DeviceId, config: Config)

  predicate Holding(j: Job) {
    j.phase == Locked || j.phase == HasRead || j.phase == Cleared || j.phase == Saved
  }

  function Members(w: Work): seq<ChangeId> {
    match w
    case Apply(c) => [c]
    case Profile(ms) => ms
    case Firmware => []
    case Sweep(c) => [c]
  }

  /** A job is about distinct changes of one device. Each has its own baseline. */
  ghost predicate Sensible(rows: map<ChangeId, Change>, w: Work, device: DeviceId) {
    var ms := Members(w);
    && (forall i :: 0 <= i < |ms| ==> ms[i] in rows && rows[ms[i]].device == device)
    && (forall i, k :: 0 <= i < k < |ms| ==> ms[i] != ms[k])
  }

  function ScheduledOf(rows: map<ChangeId, Change>, ms: seq<ChangeId>): seq<ChangeId> {
    if ms == [] then []
    else
      ScheduledOf(rows, ms[..|ms| - 1])
      + if ms[|ms| - 1] in rows && rows[ms[|ms| - 1]].status == Scheduled then [ms[|ms| - 1]] else []
  }

  function Release(locks: map<int, JobId>, j: JobId): map<int, JobId> {
    map k | k in locks && locks[k] != j :: locks[k]
  }

  /** Whether the guard lets a configuration through. */
  predicate Unchanged(env: Setting, baseline: string, xml: Config) {
    baseline == "" || env.hash(xml) == baseline
  }

  function Give(row: Change, status: Status, snapshot: Option<JobId>): Change {
    row.(status := status, ends := row.ends + 1, snapshot := if snapshot.Some? then snapshot else row.snapshot)
  }

  /** The rows after the changes in `todo` were given the statuses in `outcome`. */
  function Settle(rows: map<ChangeId, Change>, todo: seq<ChangeId>, outcome: seq<Status>, snapshot: Option<JobId>)
    : map<ChangeId, Change>
    requires |outcome| == |todo|
  {
    if todo == [] then rows
    else
      var n := |todo| - 1;
      var before := Settle(rows, todo[..n], outcome[..n], snapshot);
      if todo[n] in before then before[todo[n] := Give(before[todo[n]], outcome[n], snapshot)] else before
  }

  /** What a job may report when it commits: a lock holder that could not read fails every member; one
      whose guard failed reports conflict for every member; otherwise each member was applied or failed. */
  predicate Reports(env: Setting, j: Job, outcome: seq<Status>) {
    |outcome| == |j.todo| &&
    match j.phase
    case Locked => forall i :: 0 <= i < |outcome| ==> outcome[i] == Failed
    case HasRead => j.xml.Some? && !Unchanged(env, j.baseline, j.xml.value)
                    && forall i :: 0 <= i < |outcome| ==> outcome[i] == Conflict
    case Cleared => forall i :: 0 <= i < |outcome| ==> outcome[i] == Applied || outcome[i] == Failed
    case Saved => forall i :: 0 <= i < |outcome| ==> outcome[i] == Applied || outcome[i] == Failed
    case _ => false
  }

  function EndJob(s: State, j: JobId): State
    requires j in s.jobs
  {
    s.(jobs := s.jobs[j := s.jobs[j].(phase := Over)], locks := Release(s.locks, j))
  }

  /** The reference a committing job leaves in its changes. */
  function SnapshotOf(j: JobId, job: Job): Option<JobId> {
    if job.saved.Some? then Some(j) else None
  }

  /** The end of a transaction that commits: its snapshot is stored with it. */
  function CommitJob(s: State, j: JobId): State
    requires j in s.jobs
  {
    var job := s.jobs[j];
    s.(jobs := s.jobs[j := job.(phase := Over, committed := true)], locks := Release(s.locks, j),
       snapshots := if job.saved.Some? then s.snapshots[j := job.saved.value] else s.snapshots)
  }

  function ToPhase(s: State, j: JobId, job: Job): State {
    s.(jobs := s.jobs[j := job])
  }

  /** A job that found the changes `todo` scheduled; without any it ends. */
  function LoadWith(s: State, j: JobId, todo: seq<ChangeId>): State
    requires j in s.jobs
  {
    var job := s.jobs[j];
    if job.work == Firmware then ToPhase(s, j, job.(phase := Loaded))
    else if todo == [] then EndJob(s, j)
    else ToPhase(s, j, job.(phase := Loaded, todo := todo,
                            baseline := if todo[0] in s.rows then s.rows[todo[0]].baseline else "",
                            attempts := if todo[0] in s.rows then s.rows[todo[0]].attempts else 0))
  }

  function DoLoad(s: State, j: JobId): State
    requires j in s.jobs
  {
    LoadWith(s, j, ScheduledOf(s.rows, Members(s.jobs[j].work)))
  }

  function DoTryLock(env: Setting, s: State, j: JobId): State
    requires j in s.jobs
  {
    var job := s.jobs[j];
    var key := env.keyOf(job.device);
    if key in s.locks then EndJob(s, j)
    else s.(jobs := s.jobs[j := job.(phase := Locked)], locks := s.locks[key := j])
  }

  function DoWrite(env: Setting, s: State, j: JobId, config: Config): State
    requires j in s.jobs
  {
    var job := s.jobs[j];
    var key := env.keyOf(job.device);
    var record := WriteRecord(j, job.device, job.todo, if key in s.locks then Some(s.locks[key]) else None,
                              job.baseline, job.xml, job.saved, job.writes == 0, s.edits(job.device) == job.seen,
                              s.rows, s.box(job.device));
    s.(jobs := s.jobs[j := job.(writes := job.writes + 1)],
       box := (d: DeviceId) => if d == job.device then config else s.box(d),
       log := s.log + [record])
  }

  /** The sweeper counts a device-free attempt, or gives up. */
  function DoSweep(env: Setting, s: State, j: JobId, c: ChangeId): State
    requires j in s.jobs && c in s.rows
  {
    var row, attempts := s.rows[c], s.jobs[j].attempts;
    var swept := if attempts < env.maxAttempts then row.(attempts := attempts + 1)
                 else Give(row, Failed, None);
    CommitJob(s.(rows := s.rows[c := swept]), j)
  }

  function DoCommit(env: Setting, s: State, j: JobId, outcome: seq<Status>): Option<State>
    requires j in s.jobs
  {
    var job := s.jobs[j];
    if job.work.Firmware? then (if job.phase == Locked then Some(CommitJob(s, j)) else None)
    else if job.work.Sweep? then
      if job.phase == Locked && job.work.change in s.rows then Some(DoSweep(env, s, j, job.work.change)) else None
    else if Reports(env, job, outcome) then
      Some(CommitJob(s.(rows := Settle(s.rows, job.todo, outcome, SnapshotOf(j, job))), j))
    else None
  }

  predicate ConfigJob(w: Work) {
    w.Apply? || w.Profile?
  }

  /** One step; None when the event cannot happen in `s`. */
  ghost function Do(env: Setting, s: State, e: Event): Option<State> {
    match e
    case Create(c, d, baseline) =>
      if c in s.rows then None
      else Some(s.(rows := s.rows[c := Change(d, baseline, Draft, None, 0, 0)]))
    case Schedule(c) =>
      if c in s.rows && !Terminal(s.rows[c].status)
      then Some(s.(rows := s.rows[c := s.rows[c].(status := Scheduled)])) else None
    case Cancel(c) =>
      if c in s.rows && !Terminal(s.rows[c].status)
      then Some(s.(rows := s.rows[c := Give(s.rows[c], Cancelled, None)])) else None
    case Enqueue(j, w, d) =>
      if j !in s.jobs && Sensible(s.rows, w, d)
      then Some(ToPhase(s, j, Job(w, d, Queued, [], "", 0, None, None, 0, 0, false))) else None
    case Load(j) => if j in s.jobs && s.jobs[j].phase == Queued then Some(DoLoad(s, j)) else None
    case TryLock(j) => if j in s.jobs && s.jobs[j].phase == Loaded then Some(DoTryLock(env, s, j)) else None
    case Read(j) =>
      if j in s.jobs && s.jobs[j].phase == Locked && ConfigJob(s.jobs[j].work) then
        var d := s.jobs[j].device;
        Some(ToPhase(s, j, s.jobs[j].(phase := HasRead, xml := Some(s.box(d)), seen := s.edits(d), writes := 0)))
      else None
    case Guard(j) =>
      if j in s.jobs && s.jobs[j].phase == HasRead && s.jobs[j].xml.Some?
         && Unchanged(env, s.jobs[j].baseline, s.jobs[j].xml.value)
      then Some(ToPhase(s, j, s.jobs[j].(phase := Cleared))) else None
    case Save(j) =>
      if j in s.jobs && s.jobs[j].phase == Cleared
      then Some(ToPhase(s, j, s.jobs[j].(phase := Saved, saved := s.jobs[j].xml))) else None
    case Write(j, config) =>
      if j in s.jobs && s.jobs[j].phase == Saved then Some(DoWrite(env, s, j, config)) else None
    case Commit(j, outcome) => if j in s.jobs then DoCommit(env, s, j, outcome) else None
    case Crash(j) => if j in s.jobs && s.jobs[j].phase != Over then Some(EndJob(s, j)) else None
    case Edit(d, config) =>
      Some(s.(box := (x: DeviceId) => if x == d then config else s.box(x),
              edits := (x: DeviceId) => if x == d then s.edits(x) + 1 else s.edits(x)))
  }

  /* What the steps have in common */

  /** Events that change one job and no row. */
  predicate JobEvent(e: Event) {
    !(e.Create? || e.Schedule? || e.Cancel? || e.Edit? || e.Commit?)
  }

  /** Only job `j` changed, and no row. */
  ghost predicate OneJob(s: State, t: State, j: JobId) {
    j in t.jobs && t.rows == s.rows && t.jobs == s.jobs[j := t.jobs[j]]
  }

  /** A job goes on with what it loaded. */
  predicate Advances(a: Job, b: Job) {
    && b.work == a.work && b.device == a.device && b.todo == a.todo && b.baseline == a.baseline
    && b.attempts == a.attempts && b.committed == a.committed
    && a.phase != Over && (b.phase == Over || (a.phase != Queued && b.phase != Queued))
    && (a.phase == Saved ==> b.saved == a.saved && (b.phase == Saved || b.phase == Over))
  }

  /** Nothing changed but jobs and rows. */
  ghost predicate Quiet(s: State, t: State) {
    t.locks == s.locks && t.box == s.box && t.edits == s.edits && t.log == s.log && t.snapshots == s.snapshots
  }

  lemma TryLockAdvances(env: Setting, s: State, j: JobId, t: State)
    requires Do(env, s, TryLock(j)) == Some(t)
    ensures OneJob(s, t, j) && j in s.jobs && Advances(s.jobs[j], t.jobs[j])
  {
  }

  lemma ReadAdvances(env: Setting, s: State, j: JobId, t: State)
    requires Do(env, s, Read(j)) == Some(t)
    ensures OneJob(s, t, j) && j in s.jobs && Advances(s.jobs[j], t.jobs[j])
    ensures Quiet(s, t) && Holding(s.jobs[j]) && Holding(t.jobs[j])
  {
  }

  lemma GuardAdvances(env: Setting, s: State, j: JobId, t: State)
    requires Do(env, s, Guard(j)) == Some(t)
    ensures OneJob(s, t, j) && j in s.jobs && Advances(s.jobs[j], t.jobs[j])
    ensures Quiet(s, t) && Holding(s.jobs[j]) && Holding(t.jobs[j])
  {
  }

  lemma SaveAdvances(env: Setting, s: State, j: JobId, t: State)
    requires Do(env, s, Save(j)) == Some(t)
    ensures OneJob(s, t, j) && j in s.jobs && Advances(s.jobs[j], t.jobs[j])
    ensures Quiet(s, t) && Holding(s.jobs[j]) && Holding(t.jobs[j])
  {
  }

  lemma WriteAdvances(env: Setting, s: State, j: JobId, config: Config, t: State)
    requires Do(env, s, Write(j, config)) == Some(t)
    ensures OneJob(s, t, j) && j in s.jobs && Advances(s.jobs[j], t.jobs[j])
    ensures t.locks == s.locks && t.edits == s.edits && t.snapshots == s.snapshots
    ensures Holding(s.jobs[j]) && Holding(t.jobs[j])
  {
  }

  lemma CrashAdvances(env: Setting, s: State, j: JobId, t: State)
    requires Do(env, s, Crash(j)) == Some(t)
    ensures OneJob(s, t, j) && j in s.jobs && Advances(s.jobs[j], t.jobs[j])
  {
  }

  lemma LoadWithShape(s: State, j: JobId, todo: seq<ChangeId>)
    requires j in s.jobs
    ensures var t := LoadWith(s, j, todo);
            && OneJob(s, t, j) && t.snapshots == s.snapshots && t.log == s.log && t.box == s.box && t.edits == s.edits
            && (t.jobs[j].phase == Over || (t.jobs[j].phase == Loaded && t.locks == s.locks))
            && (t.jobs[j].phase == Over ==> t.locks == Release(s.locks, j))
            && t.jobs[j].committed == s.jobs[j].committed && t.jobs[j].saved == s.jobs[j].saved
            && t.jobs[j].device == s.jobs[j].device && t.jobs[j].work == s.jobs[j].work
            && t.jobs[j].writes == s.jobs[j].writes
  {
  }

  lemma LoadShape(env: Setting, s: State, j: JobId, t: State)
    requires Do(env, s, Load(j)) == Some(t)
    ensures j in s.jobs && s.jobs[j].phase == Queued && t == LoadWith(s, j, ScheduledOf(s.rows, Members(s.jobs[j].work)))
    ensures OneJob(s, t, j) && t.snapshots == s.snapshots && t.log == s.log && t.box == s.box && t.edits == s.edits
    ensures t.jobs[j].committed == s.jobs[j].committed && t.jobs[j].saved == s.jobs[j].saved
    ensures t.jobs[j].phase == Loaded || t.jobs[j].phase == Over
  {
    LoadWithShape(s, j, ScheduledOf(s.rows, Members(s.jobs[j].work)));
  }

  lemma EnqueueShape(env: Setting, s: State, j: JobId, w: Work, d: DeviceId, t: State)
    requires Do(env, s, Enqueue(j, w, d)) == Some(t)
    ensures j !in s.jobs && OneJob(s, t, j) && Quiet(s, t) && Sensible(s.rows, w, d)
    ensures t.jobs[j] == Job(w, d, Queued, [], "", 0, None, None, 0, 0, false)
  {
  }

  lemma CommitShape(env: Setting, s: State, j: JobId, outcome: seq<Status>, t: State)
    requires Do(env, s, Commit(j, outcome)) == Some(t)
    ensures j in s.jobs && Holding(s.jobs[j])
    ensures t.jobs == s.jobs[j := s.jobs[j].(phase := Over, committed := true)]
    ensures t.snapshots == if s.jobs[j].saved.Some? then s.snapshots[j := s.jobs[j].saved.value] else s.snapshots
    ensures t.log == s.log && t.locks == Release(s.locks, j) && t.box == s.box && t.edits == s.edits
  {
    CommitIs(env, s, j, outcome, t);
    CommitJobShape(s, j, t.rows);
  }

  lemma CommitIs(env: Setting, s: State, j: JobId, outcome: seq<Status>, t: State)
    requires j in s.jobs && DoCommit(env, s, j, outcome) == Some(t)
    ensures Holding(s.jobs[j]) && t == CommitJob(s.(rows := t.rows), j)
  {
  }

  lemma CommitJobShape(s: State, j: JobId, rows: map<ChangeId, Change>)
    requires j in s.jobs
    ensures var t := CommitJob(s.(rows := rows), j);
            && t.jobs == s.jobs[j := s.jobs[j].(phase := Over, committed := true)]
            && t.snapshots == (if s.jobs[j].saved.Some? then s.snapshots[j := s.jobs[j].saved.value] else s.snapshots)
            && t.log == s.log && t.locks == Release(s.locks, j) && t.box == s.box && t.edits == s.edits
  {
  }

  lemma CrashShape(env: Setting, s: State, j: JobId, t: State)
    requires Do(env, s, Crash(j)) == Some(t)
    ensures j in s.jobs && t == EndJob(s, j)
  {
  }

  /** API calls change rows only, and edits the device only. */
  lemma CallShape(env: Setting, s: State, e: Event, t: State)
    requires Do(env, s, e) == Some(t) && !JobEvent(e) && !e.Commit?
    ensures t.jobs == s.jobs && t.locks == s.locks && t.log == s.log && t.snapshots == s.snapshots
    ensures !e.Edit? ==> t.box == s.box && t.edits == s.edits
  {
  }

  /** Past its load a job only advances. */
  lemma JobAdvances(env: Setting, s: State, e: Event, t: State)
    requires Do(env, s, e) == Some(t) && JobEvent(e) && !e.Enqueue? && !e.Load?
    ensures OneJob(s, t, e.job) && e.job in s.jobs && Advances(s.jobs[e.job], t.jobs[e.job])
  {
    match e
    case TryLock(j) => TryLockAdvances(env, s, j, t);
    case Read(j) => ReadAdvances(env, s, j, t);
    case Guard(j) => GuardAdvances(env, s, j, t);
    case Save(j) => SaveAdvances(env, s, j, t);
    case Write(j, config) => WriteAdvances(env, s, j, config, t);
    case Crash(j) => CrashAdvances(env, s, j, t);
  }

  /** An empty system with arbitrary devices. */
  ghost predicate Initial(s: State) {
    s.rows == map[] && s.jobs == map[] && s.locks == map[] && s.snapshots == map[] && s.log == []
  }

  /** Event `k` leads from the `k`-th state to the next. */
  ghost predicate StepAt(env: Setting, st: seq<State>, es: seq<Event>, k: nat)
    requires k < |es| && |st| == |es| + 1
  {
    Do(env, st[k], es[k]) == Some(st[k + 1])
  }

  /** A run: the states `st` an empty system goes through with the events `es`. */
  ghost predicate Trace(env: Setting, st: seq<State>, es: seq<Event>) {
    |st| == |es| + 1 && Initial(st[0]) && forall k :: 0 <= k < |es| ==> StepAt(env, st, es, k)
  }

  /* The lock */

  /** Holding jobs and lock entries correspond. */
  ghost predicate LockInv(env: Setting, jobs: map<JobId, Job>, locks: map<int, JobId>) {
    && (forall j :: j in jobs && Holding(jobs[j]) ==>
          env.keyOf(jobs[j].device) in locks && locks[env.keyOf(jobs[j].device)] == j)
    && (forall k :: k in locks ==>
          locks[k] in jobs && Holding(jobs[locks[k]]) && env.keyOf(jobs[locks[k]].device) == k)
  }

  lemma LockKept(env: Setting, jobs: map<JobId, Job>, locks: map<int, JobId>, j: JobId, job: Job)
    requires LockInv(env, jobs, locks)
    requires j in jobs ==> job.device == jobs[j].device && (Holding(job) <==> Holding(jobs[j]))
    requires j !in jobs ==> !Holding(job)
    ensures LockInv(env, jobs[j := job], locks)
  {
  }

  lemma LockTaken(env: Setting, jobs: map<JobId, Job>, locks: map<int, JobId>, j: JobId, job: Job)
    requires LockInv(env, jobs, locks) && j in jobs && !Holding(jobs[j]) && Holding(job)
    requires job.device == jobs[j].device && env.keyOf(job.device) !in locks
    ensures LockInv(env, jobs[j := job], locks[env.keyOf(job.device) := j])
  {
  }

  lemma LockReleased(env: Setting, jobs: map<JobId, Job>, locks: map<int, JobId>, j: JobId, job: Job)
    requires LockInv(env, jobs, locks) && j in jobs && !Holding(job)
    ensures LockInv(env, jobs[j := job], Release(locks, j))
  {
  }

  lemma LockStep(env: Setting, s: State, e: Event, t: State)
    requires LockInv(env, s.jobs, s.locks) && Do(env, s, e) == Some(t)
    ensures LockInv(env, t.jobs, t.locks)
  {
    if JobEvent(e) {
      LockJobStep(env, s, e, t);
    } else if e.Commit? {
      LockCommit(env, s, e.job, e.outcome, t);
    } else {
      CallShape(env, s, e, t);
    }
  }

  lemma LockJobStep(env: Setting, s: State, e: Event, t: State)
    requires LockInv(env, s.jobs, s.locks) && JobEvent(e) && Do(env, s, e) == Some(t)
    ensures LockInv(env, t.jobs, t.locks)
  {
    match e
    case Enqueue(j, w, d) => LockEnqueue(env, s, j, w, d, t);
    case Load(j) => LockLoad(env, s, j, t);
    case TryLock(j) => LockTryLock(env, s, j, t);
    case Read(j) => LockRead(env, s, j, t);
    case Guard(j) => LockGuard(env, s, j, t);
    case Save(j) => LockSave(env, s, j, t);
    case Write(j, config) => LockWrite(env, s, j, config, t);
    case Crash(j) => LockCrash(env, s, j, t);
  }

  lemma LockEnqueue(env: Setting, s: State, j: JobId, w: Work, d: DeviceId, t: State)
    requires LockInv(env, s.jobs, s.locks) && Do(env, s, Enqueue(j, w, d)) == Some(t)
    ensures LockInv(env, t.jobs, t.locks)
  {
    EnqueueShape(env, s, j, w, d, t);
    LockKept(env, s.jobs, s.locks, j, t.jobs[j]);
  }

  lemma LockRead(env: Setting, s: State, j: JobId, t: State)
    requires LockInv(env, s.jobs, s.locks) && Do(env, s, Read(j)) == Some(t)
    ensures LockInv(env, t.jobs, t.locks)
  {
    ReadAdvances(env, s, j, t);
    LockKept(env, s.jobs, s.locks, j, t.jobs[j]);
  }

  lemma LockGuard(env: Setting, s: State, j: JobId, t: State)
    requires LockInv(env, s.jobs, s.locks) && Do(env, s, Guard(j)) == Some(t)
    ensures LockInv(env, t.jobs, t.locks)
  {
    GuardAdvances(env, s, j, t);
    LockKept(env, s.jobs, s.locks, j, t.jobs[j]);
  }

  lemma LockSave(env: Setting, s: State, j: JobId, t: State)
    requires LockInv(env, s.jobs, s.locks) && Do(env, s, Save(j)) == Some(t)
    ensures LockInv(env, t.jobs, t.locks)
  {
    SaveAdvances(env, s, j, t);
    LockKept(env, s.jobs, s.locks, j, t.jobs[j]);
  }

  lemma LockWrite(env: Setting, s: State, j: JobId, config: Config, t: State)
    requires LockInv(env, s.jobs, s.locks) && Do(env, s, Write(j, config)) == Some(t)
    ensures LockInv(env, t.jobs, t.locks)
  {
    WriteAdvances(env, s, j, config, t);
    LockKept(env, s.jobs, s.locks, j, t.jobs[j]);
  }

  lemma LockCrash(env: Setting, s: State, j: JobId, t: State)
    requires LockInv(env, s.jobs, s.locks) && Do(env, s, Crash(j)) == Some(t)
    ensures LockInv(env, t.jobs, t.locks)
  {
    CrashShape(env, s, j, t);
    LockReleased(env, s.jobs, s.locks, j, t.jobs[j]);
  }

  lemma LockTryLock(env: Setting, s: State, j: JobId, t: State)
    requires LockInv(env, s.jobs, s.locks) && Do(env, s, TryLock(j)) == Some(t)
    ensures LockInv(env, t.jobs, t.locks)
  {
    if env.keyOf(s.jobs[j].device) in s.locks {
      LockReleased(env, s.jobs, s.locks, j, t.jobs[j]);
    } else {
      LockTaken(env, s.jobs, s.locks, j, t.jobs[j]);
    }
  }

  lemma LockCommit(env: Setting, s: State, j: JobId, outcome: seq<Status>, t: State)
    requires LockInv(env, s.jobs, s.locks) && Do(env, s, Commit(j, outcome)) == Some(t)
    ensures LockInv(env, t.jobs, t.locks)
  {
    CommitShape(env, s, j, outcome, t);
    LockReleased(env, s.jobs, s.locks, j, t.jobs[j]);
  }

  lemma LockLoad(env: Setting, s: State, j: JobId, t: State)
    requires LockInv(env, s.jobs, s.locks) && Do(env, s, Load(j)) == Some(t)
    ensures LockInv(env, t.jobs, t.locks)
  {
    LoadShape(env, s, j, t);
    LoadWithShape(s, j, ScheduledOf(s.rows, Members(s.jobs[j].work)));
    if t.jobs[j].phase == Over {
      LockReleased(env, s.jobs, s.locks, j, t.jobs[j]);
    } else {
      LockKept(env, s.jobs, s.locks, j, t.jobs[j]);
    }
  }

  lemma {:induction false} LockHolds(env: Setting, st: seq<State>, es: seq<Event>, n: nat)
    requires Trace(env, st, es) && n <= |es|
    ensures LockInv(env, st[n].jobs, st[n].locks)
    decreases n
  {
    if n > 0 {
      assert StepAt(env, st, es, n - 1);
      LockHolds(env, st, es, n - 1);
      LockStep(env, st[n - 1], es[n - 1], st[n]);
    }
  }

  /** In every reachable state at most one job holds the lock of a device, even among devices that
      share a lock key. */
  lemma OneHolder(env: Setting, st: seq<State>, es: seq<Event>, n: nat, i: JobId, j: JobId)
    requires Trace(env, st, es) && n <= |es|
    requires var t := st[n];
             i in t.jobs && j in t.jobs && Holding(t.jobs[i]) && Holding(t.jobs[j])
             && env.keyOf(t.jobs[i].device) == env.keyOf(t.jobs[j].device)
    ensures i == j
  {
    LockHolds(env, st, es, n);
  }

  /* No clobber */

  predicate Reading(j: Job) {
    j.phase == HasRead || j.phase == Cleared || j.phase == Saved
  }

  /** What a job knows about its device: until it writes, and unless someone edits the device, the
      device still has the configuration the job read. */
  ghost predicate ReadInv(env: Setting, j: Job, box: DeviceId -> Config, edits: DeviceId -> int) {
    && (Reading(j) ==> ConfigJob(j.work) && j.xml.Some? && j.seen <= edits(j.device)
                       && (j.writes == 0 && j.seen == edits(j.device) ==> box(j.device) == j.xml.value))
    && (j.phase == Cleared || j.phase == Saved ==> j.xml.Some? && Unchanged(env, j.baseline, j.xml.value))
    && (j.phase == Saved ==> j.saved == j.xml)
    && (j.phase != Saved && j.phase != Over ==> j.saved == None)
    && (j.phase == HasRead || j.phase == Cleared ==> j.writes == 0)
  }

  ghost predicate ReadsInv(env: Setting, s: State) {
    forall j :: j in s.jobs ==> ReadInv(env, s.jobs[j], s.box, s.edits)
  }

  /** A justified write: its job held the device's lock, had read under that lock a configuration that
      matches the baseline (or there was none), had stored exactly that configuration as the rollback
      snapshot, and, on its first write to a device nobody else edited, replaced that very
      configuration. */
  ghost predicate Justified(env: Setting, r: WriteRecord) {
    && r.holder == Some(r.job)
    && r.read.Some? && Unchanged(env, r.baseline, r.read.value)
    && r.saved == r.read
    && (r.first && r.undisturbed ==> r.replaced == r.read.value)
  }

  ghost predicate LogInv(env: Setting, log: seq<WriteRecord>) {
    forall i :: 0 <= i < |log| ==> Justified(env, log[i])
  }

  lemma ReadsKept(env: Setting, s: State, t: State, j: JobId)
    requires ReadsInv(env, s) && t.box == s.box && t.edits == s.edits
    requires j in t.jobs && t.jobs == s.jobs[j := t.jobs[j]] && ReadInv(env, t.jobs[j], s.box, s.edits)
    ensures ReadsInv(env, t)
  {
  }

  lemma ReadsWrite(env: Setting, s: State, j: JobId, config: Config)
    requires ReadsInv(env, s) && LockInv(env, s.jobs, s.locks) && j in s.jobs && s.jobs[j].phase == Saved
    ensures ReadsInv(env, DoWrite(env, s, j, config))
  {
    var t := DoWrite(env, s, j, config);
    forall i | i in t.jobs ensures ReadInv(env, t.jobs[i], t.box, t.edits) {
      assert ReadInv(env, s.jobs[i], s.box, s.edits);
      assert Holding(s.jobs[j]);
      assert Reading(s.jobs[i]) ==> Holding(s.jobs[i]);
    }
  }

  lemma ReadsEdit(env: Setting, s: State, t: State, d: DeviceId, config: Config)
    requires ReadsInv(env, s) && Do(env, s, Edit(d, config)) == Some(t)
    ensures ReadsInv(env, t)
  {
    forall i | i in t.jobs ensures ReadInv(env, t.jobs[i], t.box, t.edits) {
      assert ReadInv(env, s.jobs[i], s.box, s.edits);
    }
  }

  lemma ReadsStep(env: Setting, s: State, e: Event, t: State)
    requires ReadsInv(env, s) && LockInv(env, s.jobs, s.locks) && Do(env, s, e) == Some(t)
    ensures ReadsInv(env, t)
  {
    if JobEvent(e) {
      ReadsJobStep(env, s, e, t);
    } else if e.Commit? {
      ReadsCommit(env, s, e.job, e.outcome, t);
    } else if e.Edit? {
      ReadsEdit(env, s, t, e.device, e.config);
    } else {
      CallShape(env, s, e, t);
    }
  }

  lemma ReadsJobStep(env: Setting, s: State, e: Event, t: State)
    requires ReadsInv(env, s) && LockInv(env, s.jobs, s.locks) && JobEvent(e) && Do(env, s, e) == Some(t)
    ensures ReadsInv(env, t)
  {
    match e
    case Enqueue(j, w, d) => ReadsEnqueue(env, s, j, w, d, t);
    case Load(j) => ReadsLoad(env, s, j, t);
    case TryLock(j) => ReadsTryLock(env, s, j, t);
    case Read(j) => ReadsRead(env, s, j, t);
    case Guard(j) => ReadsGuard(env, s, j, t);
    case Save(j) => ReadsSave(env, s, j, t);
    case Write(j, config) => ReadsWrite(env, s, j, config);
    case Crash(j) => ReadsCrash(env, s, j, t);
  }

  lemma ReadsEnqueue(env: Setting, s: State, j: JobId, w: Work, d: DeviceId, t: State)
    requires ReadsInv(env, s) && Do(env, s, Enqueue(j, w, d)) == Some(t)
    ensures ReadsInv(env, t)
  {
    EnqueueShape(env, s, j, w, d, t);
    ReadsKept(env, s, t, j);
  }

  lemma ReadsLoad(env: Setting, s: State, j: JobId, t: State)
    requires ReadsInv(env, s) && Do(env, s, Load(j)) == Some(t)
    ensures ReadsInv(env, t)
  {
    LoadShape(env, s, j, t);
    assert ReadInv(env, s.jobs[j], s.box, s.edits);
    ReadsKept(env, s, t, j);
  }

  lemma ReadsTryLock(env: Setting, s: State, j: JobId, t: State)
    requires ReadsInv(env, s) && Do(env, s, TryLock(j)) == Some(t)
    ensures ReadsInv(env, t)
  {
    ReadsKept(env, s, t, j);
  }

  lemma ReadsRead(env: Setting, s: State, j: JobId, t: State)
    requires ReadsInv(env, s) && Do(env, s, Read(j)) == Some(t)
    ensures ReadsInv(env, t)
  {
    ReadsKept(env, s, t, j);
  }

  lemma ReadsGuard(env: Setting, s: State, j: JobId, t: State)
    requires ReadsInv(env, s) && Do(env, s, Guard(j)) == Some(t)
    ensures ReadsInv(env, t)
  {
    ReadsKept(env, s, t, j);
  }

  lemma ReadsSave(env: Setting, s: State, j: JobId, t: State)
    requires ReadsInv(env, s) && Do(env, s, Save(j)) == Some(t)
    ensures ReadsInv(env, t)
  {
    ReadsKept(env, s, t, j);
  }

  lemma ReadsCrash(env: Setting, s: State, j: JobId, t: State)
    requires ReadsInv(env, s) && Do(env, s, Crash(j)) == Some(t)
    ensures ReadsInv(env, t)
  {
    ReadsKept(env, s, t, j);
  }

  lemma ReadsCommit(env: Setting, s: State, j: JobId, outcome: seq<Status>, t: State)
    requires ReadsInv(env, s) && Do(env, s, Commit(j, outcome)) == Some(t)
    ensures ReadsInv(env, t)
  {
    CommitShape(env, s, j, outcome, t);
    ReadsKept(env, s, t, j);
  }

  /** The log grows by writes only. */
  lemma LogSame(env: Setting, s: State, e: Event, t: State)
    requires Do(env, s, e) == Some(t) && !e.Write?
    ensures t.log == s.log
  {
  }

  lemma LogWrite(env: Setting, s: State, j: JobId, config: Config, t: State)
    requires LogInv(env, s.log) && ReadsInv(env, s) && LockInv(env, s.jobs, s.locks)
    requires Do(env, s, Write(j, config)) == Some(t)
    ensures LogInv(env, t.log)
  {
    assert ReadInv(env, s.jobs[j], s.box, s.edits);
    assert Justified(env, t.log[|s.log|]);
  }

  lemma LogStep(env: Setting, s: State, e: Event, t: State)
    requires LogInv(env, s.log) && ReadsInv(env, s) && LockInv(env, s.jobs, s.locks) && Do(env, s, e) == Some(t)
    ensures LogInv(env, t.log)
  {
    if e.Write? {
      LogWrite(env, s, e.job, e.config, t);
    } else {
      LogSame(env, s, e, t);
    }
  }

  lemma {:induction false} ReadsHold(env: Setting, st: seq<State>, es: seq<Event>, n: nat)
    requires Trace(env, st, es) && n <= |es|
    ensures ReadsInv(env, st[n]) && LogInv(env, st[n].log)
    decreases n
  {
    if n > 0 {
      assert StepAt(env, st, es, n - 1);
      ReadsHold(env, st, es, n - 1);
      LockHolds(env, st, es, n - 1);
      ReadsStep(env, st[n - 1], es[n - 1], st[n]);
      LogStep(env, st[n - 1], es[n - 1], st[n]);
    }
  }

  /** Over every interleaving, every live write is justified. */
  lemma EveryWriteJustified(env: Setting, st: seq<State>, es: seq<Event>, n: nat, i: nat)
    requires Trace(env, st, es) && n <= |es| && i < |st[n].log|
    ensures Justified(env, st[n].log[i])
  {
    ReadsHold(env, st, es, n);
  }
}

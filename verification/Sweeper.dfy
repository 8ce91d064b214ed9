/** The orphan sweeper: what one pass does to the overdue actions, and what any life of an action, swept
    any number of times between atomic job and API steps, comes to. */
module Sweeper {
  import opened Strings
  import opened Pipeline

  datatype Decision = ReEnqueue | GiveUp

  function DecideOrphan(attempts: int, maxAttempts: int): Decision {
    if attempts < maxAttempts then ReEnqueue else GiveUp
  }

  /** What the sweeper meets at one row: a transaction that fails, a busy device, or a free one whose
      re-enqueue is accepted or not. */
  datatype Encounter = Broken | Busy | Free(queueUp: bool)

  /** What the sweeper does at one row. */
  datatype Effect = Nothing | Skipped | Counted | Requeued | GaveUp

  /** An action as far as the sweeper is concerned. */
  datatype Action = Action(status: Status, attempts: int)

  function EffectOn(a: Action, e: Encounter, maxAttempts: int): Effect {
    if e.Broken? || a.status != Scheduled then Nothing
    else if e.Busy? then Skipped
    else if DecideOrphan(a.attempts, maxAttempts) == GiveUp then GaveUp
    else if e.queueUp then Requeued
    else Counted
  }

  function Swept(a: Action, f: Effect): Action {
    match f
    case GaveUp => a.(status := Failed)
    case Requeued => a.(attempts := a.attempts + 1)
    case Counted => a.(attempts := a.attempts + 1)
    case _ => a
  }

  /* One pass */

  class ActionRow {
    const id: nat
    const createdAt: int
    var scheduledAt: Option<int>
    var status: Status
    var attempts: int

    constructor (id: nat, status: Status, createdAt: int)
      ensures this.id == id && this.createdAt == createdAt && scheduledAt == None && View() == Action(status, 0)
    {
      this.id, this.createdAt, this.scheduledAt := id, createdAt, None;
      this.status, this.attempts := status, 0;
    }

    /** Scheduled, and due before the cutoff: its own time, or when it was created. */
    predicate Overdue(cutoff: int)
      reads this
    {
      status == Scheduled && (if scheduledAt.Some? then scheduledAt.value else createdAt) < cutoff
    }

    function View(): Action
      reads this
    {
      Action(status, attempts)
    }
  }

  datatype Totals = Totals(reEnqueued: nat, gaveUp: nat, skipped: nat)

  predicate Apart(rows: seq<ActionRow>, k: nat)
    requires k < |rows|
  {
    forall i :: 0 <= i < |rows| && i != k ==> rows[i] != rows[k]
  }

  /** The ids among the first `n` rows on which the sweeper had effect `f`. */
  function IdsWith(effects: seq<Effect>, ids: seq<nat>, f: Effect, n: nat): (r: seq<nat>)
    requires n <= |effects| == |ids|
    ensures |r| <= n
  {
    if n == 0 then []
    else if effects[n - 1] == f then IdsWith(effects, ids, f, n - 1) + [ids[n - 1]]
    else IdsWith(effects, ids, f, n - 1)
  }

  /** One row in its own transaction. */
  method SweepRow(row: ActionRow, e: Encounter, maxAttempts: int) returns (f: Effect)
    modifies row
    ensures f == EffectOn(old(row.View()), e, maxAttempts) && row.View() == Swept(old(row.View()), f)
  {
    if e.Broken? || row.status != Scheduled {
      return Nothing;
    }
    if e.Busy? {
      return Skipped;
    }
    if DecideOrphan(row.attempts, maxAttempts) == ReEnqueue {
      row.attempts := row.attempts + 1;
      return if e.queueUp then Requeued else Counted;
    }
    row.status := Failed;
    return GaveUp;
  }

  function ActionIds(rows: seq<ActionRow>): (r: seq<nat>)
    ensures |r| == |rows| && forall i :: 0 <= i < |r| ==> r[i] == rows[i].id
  {
    seq(|rows|, (i: nat) requires i < |rows| => rows[i].id)
  }

  /** The ids of a pass are selected before any row is looked at. */
  method SelectOverdue(rows: seq<ActionRow>, cutoff: int) returns (due: seq<bool>)
    ensures |due| == |rows|
    ensures forall i :: 0 <= i < |rows| ==>
              && due[i] == rows[i].Overdue(cutoff)
              && (due[i] <==> && rows[i].status == Scheduled
                              && (match rows[i].scheduledAt
                                  case Some(at) => at < cutoff
                                  case None => rows[i].createdAt < cutoff))
  {
    due := [];
    for n := 0 to |rows|
      invariant |due| == n && forall i :: 0 <= i < n ==> due[i] == rows[i].Overdue(cutoff)
    {
      due := due + [rows[n].Overdue(cutoff)];
    }
  }

  /** What a pass has written down after `n` rows. */
  ghost predicate Booked(totals: Totals, jobs: seq<nat>, alerts: seq<nat>, effects: seq<Effect>, ids: seq<nat>, n: nat)
    requires n <= |effects| == |ids|
  {
    && jobs == IdsWith(effects, ids, Requeued, n) && alerts == IdsWith(effects, ids, GaveUp, n)
    && totals == Totals(|jobs|, |alerts|, |IdsWith(effects, ids, Skipped, n)|)
  }

  /** Writes down what became of row `n`. */
  method Enter(totals0: Totals, jobs0: seq<nat>, alerts0: seq<nat>, f: Effect, id: nat, ghost effects: seq<Effect>,
               ghost ids: seq<nat>, ghost n: nat)
    returns (totals: Totals, jobs: seq<nat>, alerts: seq<nat>)
    requires n < |effects| == |ids| && effects[n] == f && ids[n] == id
    requires Booked(totals0, jobs0, alerts0, effects, ids, n)
    ensures Booked(totals, jobs, alerts, effects, ids, n + 1)
  {
    totals, jobs, alerts := totals0, jobs0, alerts0;
    match f {
      case Requeued =>
        jobs := jobs + [id];
        totals := totals.(reEnqueued := totals.reEnqueued + 1);
      case GaveUp =>
        alerts := alerts + [id];
        totals := totals.(gaveUp := totals.gaveUp + 1);
      case Skipped => totals := totals.(skipped := totals.skipped + 1);
      case _ =>
    }
  }

  /** One pass: the rows overdue when it starts are swept, each as it meets them, and no others. `jobs` are
      the re-enqueued ids and `alerts` the ids alerted on, in order. */
  method Sweep(rows: seq<ActionRow>, world: seq<Encounter>, cutoff: int, maxAttempts: int)
    returns (totals: Totals, jobs: seq<nat>, alerts: seq<nat>, ghost effects: seq<Effect>)
    requires |world| == |rows| && forall k :: 0 <= k < |rows| ==> Apart(rows, k)
    modifies rows
    ensures |effects| == |rows|
    ensures forall i :: 0 <= i < |rows| ==>
              && effects[i] == (if old(rows[i].Overdue(cutoff)) then EffectOn(old(rows[i].View()), world[i], maxAttempts)
                                else Nothing)
              && rows[i].View() == Swept(old(rows[i].View()), effects[i])
    ensures jobs == IdsWith(effects, ActionIds(rows), Requeued, |rows|)
    ensures alerts == IdsWith(effects, ActionIds(rows), GaveUp, |rows|)
    ensures totals == Totals(|jobs|, |alerts|, |IdsWith(effects, ActionIds(rows), Skipped, |rows|)|)
  {
    var due := SelectOverdue(rows, cutoff);
    totals, jobs, alerts, effects := Totals(0, 0, 0), [], [], [];
    ghost var was := seq(|rows|, (i: nat) requires i < |rows| reads rows => rows[i].View());
    ghost var ids := ActionIds(rows);
    ghost var plan := seq(|rows|, (i: nat) requires i < |rows| =>
      if due[i] then EffectOn(was[i], world[i], maxAttempts) else Nothing);
    for n := 0 to |rows|
      invariant forall i :: n <= i < |rows| ==> rows[i].View() == was[i]
      invariant forall i :: 0 <= i < n ==> rows[i].View() == Swept(was[i], plan[i])
      invariant Booked(totals, jobs, alerts, plan, ids, n)
    {
      assert Apart(rows, n);
      var f := Nothing;
      if due[n] {
        f := SweepRow(rows[n], world[n], maxAttempts);
      }
      totals, jobs, alerts := Enter(totals, jobs, alerts, f, rows[n].id, plan, ids, n);
    }
    effects := plan;
  }

  lemma {:induction false} IdsWithMembers(effects: seq<Effect>, ids: seq<nat>, f: Effect, n: nat, x: nat)
    requires n <= |effects| == |ids|
    ensures x in IdsWith(effects, ids, f, n) <==> exists i :: 0 <= i < n && effects[i] == f && ids[i] == x
    decreases n
  {
    if n > 0 {
      IdsWithMembers(effects, ids, f, n - 1, x);
    }
  }

  /** What a sweep does to one row: an attempt is counted, whether or not the queue takes the job, exactly on
      a free device while attempts are left; the row is failed exactly on a free device when none is; and
      otherwise it stays as it is. */
  lemma SweptExactly(a: Action, e: Encounter, maxAttempts: int)
    ensures var b := Swept(a, EffectOn(a, e, maxAttempts));
            if a.status != Scheduled || !e.Free? then b == a
            else if a.attempts < maxAttempts then b == Action(Scheduled, a.attempts + 1)
            else b == Action(Failed, a.attempts)
  {
  }

  /** When a row is re-enqueued, counted although the queue refuses, given up and skipped. */
  predicate Earns(due: bool, a: Action, e: Encounter, maxAttempts: int, f: Effect) {
    && due && a.status == Scheduled
    && match f
       case Requeued => e == Free(true) && a.attempts < maxAttempts
       case Counted => e == Free(false) && a.attempts < maxAttempts
       case GaveUp => e.Free? && a.attempts >= maxAttempts
       case Skipped => e == Busy
       case Nothing => false
  }

  /** The ids of a pass with an effect are exactly those of the rows that earn it. */
  lemma PassExactly(was: seq<Action>, world: seq<Encounter>, due: seq<bool>, ids: seq<nat>, effects: seq<Effect>,
                    maxAttempts: int, f: Effect, x: nat)
    requires |was| == |world| == |due| == |ids| == |effects| && f != Nothing
    requires forall i :: 0 <= i < |was| ==>
               effects[i] == if due[i] then EffectOn(was[i], world[i], maxAttempts) else Nothing
    ensures x in IdsWith(effects, ids, f, |was|)
       <==> exists i :: 0 <= i < |was| && ids[i] == x && Earns(due[i], was[i], world[i], maxAttempts, f)
  {
    IdsWithMembers(effects, ids, f, |was|, x);
    forall i | 0 <= i < |was| ensures effects[i] == f <==> Earns(due[i], was[i], world[i], maxAttempts, f) {
      EarnedEffect(due[i], was[i], world[i], maxAttempts, f);
    }
  }

  lemma EarnedEffect(due: bool, a: Action, e: Encounter, maxAttempts: int, f: Effect)
    requires f != Nothing
    ensures (due && EffectOn(a, e, maxAttempts) == f) <==> Earns(due, a, e, maxAttempts, f)
  {
  }

  /** The pipeline's sweep step does to a row what a sweep on a free device does to the action it loaded. */
  lemma SweepFitsPipeline(env: Setting, s: State, j: JobId, c: ChangeId, outcome: seq<Pipeline.Status>, t: State, queueUp: bool)
    requires j in s.jobs && s.jobs[j].work == Pipeline.Sweep(c) && Do(env, s, Commit(j, outcome)) == Some(t)
    ensures c in s.rows && c in t.rows
    ensures var row, a := s.rows[c], Action(Scheduled, s.jobs[j].attempts);
            var b := Swept(a, EffectOn(a, Free(queueUp), env.maxAttempts));
            t.rows == s.rows[c := if b.status == Scheduled then row.(attempts := b.attempts)
                                  else row.(status := b.status, ends := row.ends + 1)]
  {
  }

  /* The life of one action */

  type Outcome = s: Status | s == Applied || s == Failed || s == Conflict witness Failed

  /** API calls, jobs that get the lock or not, and sweeps. A job's load, check, lock and commit are one
      step. */
  datatype Happening = ScheduleIt | CancelIt | RunJob(got: bool, outcome: Outcome) | SweepIt(e: Encounter)

  /** An action with counts of what became of it; `lost` counts re-enqueues the queue refused. */
  datatype Life = Life(action: Action, requeues: nat, lost: nat, alerts: nat, finished: nat)

  function Newborn(): Life {
    Life(Action(Draft, 0), 0, 0, 0, 0)
  }

  function Finish(l: Life, s: Status): Life {
    l.(action := l.action.(status := s), finished := l.finished + 1)
  }

  function SweepLife(l: Life, f: Effect): Life {
    var m := l.(action := Swept(l.action, f));
    match f
    case GaveUp => m.(alerts := m.alerts + 1, finished := m.finished + 1)
    case Requeued => m.(requeues := m.requeues + 1)
    case Counted => m.(lost := m.lost + 1)
    case _ => m
  }

  function Live(l: Life, h: Happening, maxAttempts: int): Life {
    match h
    case ScheduleIt => if Terminal(l.action.status) then l else l.(action := l.action.(status := Scheduled))
    case CancelIt => if Terminal(l.action.status) then l else Finish(l, Cancelled)
    case RunJob(got, outcome) => if l.action.status == Scheduled && got then Finish(l, outcome) else l
    case SweepIt(e) => SweepLife(l, EffectOn(l.action, e, maxAttempts))
  }

  /** The action after the first `n` happenings. */
  function After(hs: seq<Happening>, n: nat, maxAttempts: int): Life
    requires n <= |hs|
  {
    if n == 0 then Newborn() else Live(After(hs, n - 1, maxAttempts), hs[n - 1], maxAttempts)
  }

  function Cap(maxAttempts: int): nat {
    if maxAttempts < 0 then 0 else maxAttempts
  }

  ghost predicate LifeInv(l: Life, maxAttempts: int) {
    && l.action.attempts == l.requeues + l.lost <= Cap(maxAttempts)
    && l.finished == (if Terminal(l.action.status) then 1 else 0)
    && l.alerts <= l.finished
    && (l.alerts == 1 ==> l.action.status == Failed && l.action.attempts == Cap(maxAttempts))
  }

  /** In every life an action is finished at most once, re-enqueued at most the maximum number of times,
      and alerted on at most once, and then it failed with all its attempts used up. */
  lemma {:induction false} LifeBounds(hs: seq<Happening>, n: nat, maxAttempts: int)
    requires n <= |hs|
    ensures LifeInv(After(hs, n, maxAttempts), maxAttempts)
    decreases n
  {
    if n > 0 {
      LifeBounds(hs, n - 1, maxAttempts);
    }
  }

  /** The sweeps among the first `n` happenings that found the device free and the queue accepting or not. */
  function FreeAnd(hs: seq<Happening>, n: nat, queueUp: bool): (k: nat)
    requires n <= |hs|
  {
    if n == 0 then 0 else FreeAnd(hs, n - 1, queueUp) + if hs[n - 1] == SweepIt(Free(queueUp)) then 1 else 0
  }

  /** A job is put into the queue only by a sweep whose queue accepts it, and lost only by one that refuses. */
  lemma {:induction false} RequeuesCounted(hs: seq<Happening>, n: nat, maxAttempts: int)
    requires n <= |hs|
    ensures After(hs, n, maxAttempts).requeues <= FreeAnd(hs, n, true)
    ensures After(hs, n, maxAttempts).lost <= FreeAnd(hs, n, false)
    decreases n
  {
    if n > 0 {
      RequeuesCounted(hs, n - 1, maxAttempts);
    }
  }

  /** Nothing at all happens to an action that is applied, failed, in conflict or cancelled. */
  lemma {:induction false} FinalIsFinal(hs: seq<Happening>, m: nat, n: nat, maxAttempts: int)
    requires m <= n <= |hs| && Terminal(After(hs, m, maxAttempts).action.status)
    ensures After(hs, n, maxAttempts) == After(hs, m, maxAttempts)
    decreases n
  {
    if m < n {
      FinalIsFinal(hs, m, n - 1, maxAttempts);
    }
  }

  /** Nothing but the sweeper decides the action's fate: its jobs miss the lock and nobody cancels it. */
  predicate Orphaned(h: Happening) {
    h.ScheduleIt? || h.SweepIt? || (h.RunJob? && !h.got)
  }

  /** The sweeps that found the device free. */
  function FreeSweeps(hs: seq<Happening>, m: nat, n: nat): (k: nat)
    requires m <= n <= |hs|
    decreases n
  {
    if m == n then 0 else FreeSweeps(hs, m, n - 1) + IsFree(hs[n - 1])
  }

  /** The measure: what is left of an orphan's attempts. */
  function Left(l: Life, maxAttempts: int): int {
    Cap(maxAttempts) - l.action.attempts
  }

  /** What became of an orphan after `free` free sweeps. */
  predicate Fate(before: Life, after: Life, free: nat, maxAttempts: int) {
    var left := Left(before, maxAttempts);
    && Left(after, maxAttempts) == (if free <= left then left - free else 0)
    && after.action.status == (if free <= left then Scheduled else Failed)
    && after.alerts == (if free <= left then 0 else 1)
  }

  function IsFree(h: Happening): nat {
    if h.SweepIt? && h.e.Free? then 1 else 0
  }

  lemma FateStep(before: Life, l: Life, h: Happening, free: nat, maxAttempts: int)
    requires Fate(before, l, free, maxAttempts) && Left(before, maxAttempts) >= 0 && l.action.attempts >= 0 && Orphaned(h)
    ensures Fate(before, Live(l, h, maxAttempts), free + IsFree(h), maxAttempts)
  {
  }

  /** An orphan uses up one attempt per free sweep, and is failed, with one alert, by the first free sweep
      that finds none left. */
  lemma {:induction false} OrphanFate(hs: seq<Happening>, m: nat, n: nat, maxAttempts: int)
    requires m <= n <= |hs| && After(hs, m, maxAttempts).action.status == Scheduled
    requires forall i :: m <= i < n ==> Orphaned(hs[i])
    ensures Fate(After(hs, m, maxAttempts), After(hs, n, maxAttempts), FreeSweeps(hs, m, n), maxAttempts)
    decreases n
  {
    var before := After(hs, m, maxAttempts);
    assert LifeInv(before, maxAttempts) by {
      LifeBounds(hs, m, maxAttempts);
    }
    if m < n {
      OrphanFate(hs, m, n - 1, maxAttempts);
      LifeBounds(hs, n - 1, maxAttempts);
      FateStep(before, After(hs, n - 1, maxAttempts), hs[n - 1], FreeSweeps(hs, m, n - 1), maxAttempts);
    }
  }

  /** Before it is first scheduled or cancelled an action is a draft that nothing happens to. */
  lemma {:induction false} DraftFirst(hs: seq<Happening>, n: nat, maxAttempts: int)
    requires n <= |hs| && forall i :: 0 <= i < n ==> hs[i].RunJob? || hs[i].SweepIt?
    ensures After(hs, n, maxAttempts) == Newborn()
    decreases n
  {
    if n > 0 {
      DraftFirst(hs, n - 1, maxAttempts);
    }
  }

  lemma CancelledFirst(hs: seq<Happening>, n: nat, maxAttempts: int)
    requires n < |hs| && (forall i :: 0 <= i < n ==> hs[i].RunJob? || hs[i].SweepIt?) && hs[n] == CancelIt
    ensures After(hs, n + 1, maxAttempts).action == Action(Cancelled, 0)
  {
    DraftFirst(hs, n, maxAttempts);
  }

  /** What the next happening makes of a scheduled action that `free` free sweeps have met. */
  function NextStatus(h: Happening, free: nat, maxAttempts: int): Status {
    match h
    case CancelIt => Cancelled
    case RunJob(got, outcome) => if got then outcome else Scheduled
    case SweepIt(e) => if e.Free? && free >= Cap(maxAttempts) then Failed else Scheduled
    case ScheduleIt => Scheduled
  }

  /** The whole life of an action: first scheduled at `m`, it stays scheduled, with one attempt per free sweep,
      until it is cancelled, a job gets the lock, which gives it the job's outcome, or a free sweep finds no
      attempts left, which fails it; and then it stays as it is. */
  lemma WholeLife(hs: seq<Happening>, m: nat, n: nat, k: nat, maxAttempts: int)
    requires m < n < k <= |hs| && (forall i :: 0 <= i < m ==> hs[i].RunJob? || hs[i].SweepIt?) && hs[m] == ScheduleIt
    requires (forall i :: m < i < n ==> Orphaned(hs[i])) && FreeSweeps(hs, m + 1, n) <= Cap(maxAttempts)
    ensures After(hs, n, maxAttempts).action == Action(Scheduled, FreeSweeps(hs, m + 1, n))
    ensures After(hs, n + 1, maxAttempts).action.status == NextStatus(hs[n], FreeSweeps(hs, m + 1, n), maxAttempts)
    ensures NextStatus(hs[n], FreeSweeps(hs, m + 1, n), maxAttempts) != Scheduled ==>
              After(hs, k, maxAttempts) == After(hs, n + 1, maxAttempts)
  {
    ScheduledLife(hs, m, n, maxAttempts);
    NextStatusIs(After(hs, n, maxAttempts), hs[n], FreeSweeps(hs, m + 1, n), maxAttempts);
    if Terminal(After(hs, n + 1, maxAttempts).action.status) {
      FinalIsFinal(hs, n + 1, k, maxAttempts);
    }
  }

  lemma ScheduledLife(hs: seq<Happening>, m: nat, n: nat, maxAttempts: int)
    requires m < n <= |hs| && (forall i :: 0 <= i < m ==> hs[i].RunJob? || hs[i].SweepIt?) && hs[m] == ScheduleIt
    requires (forall i :: m < i < n ==> Orphaned(hs[i])) && FreeSweeps(hs, m + 1, n) <= Cap(maxAttempts)
    ensures After(hs, n, maxAttempts).action == Action(Scheduled, FreeSweeps(hs, m + 1, n))
  {
    DraftFirst(hs, m, maxAttempts);
    assert After(hs, m + 1, maxAttempts).action == Action(Scheduled, 0);
    OrphanFate(hs, m + 1, n, maxAttempts);
  }

  lemma NextStatusIs(l: Life, h: Happening, free: nat, maxAttempts: int)
    requires l.action == Action(Scheduled, free) && free <= Cap(maxAttempts)
    ensures Live(l, h, maxAttempts).action.status == NextStatus(h, free, maxAttempts)
  {
  }
}

/** Applying one change and applying a profile: the guard, the rollback snapshot, and what the device is
    sent. */
module ConfigPush {
  import opened Strings
  import opened ConfigTree
  import opened Pipeline

  datatype Result = NoResult | Error(text: string) | Drifted(baseline: string) | Response(text: string)

  /** What a job changes in a stored change. */
  datatype Row = Row(status: Status, result: Result, snapshot: Option<Config>, appliedAt: Option<int>)

  class ConfigChange {
    const id: nat
    const kind: string
    const baseline: string
    var status: Status
    var result: Result
    var snapshot: Option<Config>
    var appliedAt: Option<int>

    constructor (id: nat, kind: string, baseline: string)
      ensures this.id == id && this.kind == kind && this.baseline == baseline
      ensures View() == Row(Draft, NoResult, None, None)
    {
      this.id, this.kind, this.baseline := id, kind, baseline;
      status, result, snapshot, appliedAt := Draft, NoResult, None, None;
    }

    function View(): Row
      reads this
    {
      Row(status, result, snapshot, appliedAt)
    }
  }

  datatype Request = Request(change: nat, dryRun: bool)

  datatype Answer = Done(text: string) | DeviceError | UnknownKind

  /** The device's answers to its requests in order, None for an error. A device that stops answering
      reports errors from then on. */
  type Replies = seq<Option<string>>

  function ReplyTo(replies: Replies, k: nat): Option<string> {
    if k < |replies| then replies[k] else None
  }

  class Client {
    const replies: Replies
    var sent: seq<Request>

    constructor (replies: Replies)
      ensures this.replies == replies && sent == []
    {
      this.replies := replies;
      sent := [];
    }
  }

  function AnswerTo(appliers: set<string>, kind: string, reply: Option<string>): Answer {
    if kind !in appliers then UnknownKind
    else match reply case Some(text) => Done(text) case None => DeviceError
  }

  method ApplyForKind(client: Client, appliers: set<string>, change: ConfigChange, dryRun: bool) returns (a: Answer)
    modifies client
    ensures a == AnswerTo(appliers, change.kind, ReplyTo(client.replies, |old(client.sent)|))
    ensures client.sent == old(client.sent) + if change.kind in appliers then [Request(change.id, dryRun)] else []
    ensures a.UnknownKind? <==> change.kind !in appliers
    ensures forall text :: a == Done(text) <==>
              && change.kind in appliers && |old(client.sent)| < |client.replies|
              && client.replies[|old(client.sent)|] == Some(text)
  {
    if change.kind !in appliers {
      return UnknownKind;
    }
    var reply := ReplyTo(client.replies, |client.sent|);
    client.sent := client.sent + [Request(change.id, dryRun)];
    match reply
    case Some(text) => a := Done(text);
    case None => a := DeviceError;
  }

  /** What the job finds: whether the lock was free, the configuration (None when it cannot be read),
      whether live pushing is on, and the time. */
  datatype Circumstances = Circumstances(got: bool, read: Option<Config>, live: bool, now: int)

  datatype Verdict = Noop | LockBusy | Unreadable | Drift | Proceed

  /** How far a job with something scheduled gets. */
  function Judge(env: Setting, baseline: string, cs: Circumstances): Verdict {
    if !cs.got then LockBusy
    else match cs.read
         case None => Unreadable
         case Some(xml) => if Unchanged(env, baseline, xml) then Proceed else Drift
  }

  function Settled(row: Row, a: Answer, cs: Circumstances): Row {
    match a
    case Done(text) => row.(status := Applied, result := Response(text), appliedAt := Some(cs.now))
    case DeviceError => row.(status := Failed, result := Error("apply failed"))
    case UnknownKind => row.(status := Failed, result := Error("unknown change kind"))
  }

  /** The row after `apply_change`, given the device's answer should it be asked. */
  function ApplyOutcome(row: Row, baseline: string, env: Setting, cs: Circumstances, a: Answer): Row {
    if row.status != Scheduled then row
    else
      match Judge(env, baseline, cs)
      case LockBusy => row
      case Unreadable => row.(status := Failed, result := Error("could not read current config"))
      case Drift => row.(status := Conflict, result := Drifted(baseline))
      case Proceed => Settled(if cs.live then row.(snapshot := cs.read) else row, a, cs)
      case Noop => row
  }

  /** The device moved on since the baseline was taken. */
  ghost predicate HasDrifted(env: Setting, baseline: string, cs: Circumstances) {
    cs.read.Some? && baseline != "" && env.hash(cs.read.value) != baseline
  }

  /** What a job may do to the row of a change: nothing unless it was scheduled and the lock was free;
      otherwise it ends in conflict exactly on drift, applied exactly when the device took it, and failed
      else. */
  ghost predicate Handled(was: Row, now: Row, baseline: string, env: Setting, cs: Circumstances, a: Answer) {
    if was.status != Scheduled || !cs.got then now == was
    else
      && (now.status == Conflict || now.status == Applied || now.status == Failed)
      && (now.status == Conflict <==> HasDrifted(env, baseline, cs))
      && (now.status == Applied <==> cs.read.Some? && !HasDrifted(env, baseline, cs) && a.Done?)
      && now.appliedAt == (if now.status == Applied then Some(cs.now) else was.appliedAt)
      && now.snapshot == (if cs.read.Some? && !HasDrifted(env, baseline, cs) && cs.live then cs.read else was.snapshot)
      && (now.status == Conflict ==> now.result == Drifted(baseline))
      && (now.status == Applied ==> now.result == Response(a.text))
      && (now.status == Failed ==>
            now.result == Error(if cs.read.None? then "could not read current config"
                                else if a.UnknownKind? then "unknown change kind" else "apply failed"))
  }

  lemma OutcomeHandled(row: Row, baseline: string, env: Setting, cs: Circumstances, a: Answer)
    ensures Handled(row, ApplyOutcome(row, baseline, env, cs, a), baseline, env, cs, a)
  {
  }

  method ApplyChange(change: ConfigChange, client: Client, appliers: set<string>, env: Setting,
                     cs: Circumstances) returns (status: Status)
    modifies change, client
    ensures change.View() == ApplyOutcome(old(change.View()), change.baseline, env, cs,
                                          AnswerTo(appliers, change.kind, ReplyTo(client.replies, |old(client.sent)|)))
    ensures status == change.status
    ensures client.sent == old(client.sent)
              + if old(change.status) == Scheduled && Judge(env, change.baseline, cs) == Proceed
                   && change.kind in appliers
                then [Request(change.id, !cs.live)] else []
    ensures Handled(old(change.View()), change.View(), change.baseline, env, cs,
                    AnswerTo(appliers, change.kind, ReplyTo(client.replies, |old(client.sent)|)))
    ensures client.sent != old(client.sent) <==>
              && old(change.status) == Scheduled && cs.got && cs.read.Some?
              && !HasDrifted(env, change.baseline, cs) && change.kind in appliers
    ensures change.status != old(change.status) ==> old(change.status) == Scheduled && cs.got
  {
    OutcomeHandled(change.View(), change.baseline, env, cs,
                   AnswerTo(appliers, change.kind, ReplyTo(client.replies, |client.sent|)));
    if change.status != Scheduled {
      return change.status;
    }
    if !cs.got {
      return change.status;
    }
    if cs.read == None {
      change.status := Failed;
      change.result := Error("could not read current config");
      return Failed;
    }
    var xml := cs.read.value;
    if change.baseline != "" && env.hash(xml) != change.baseline {
      change.status := Conflict;
      change.result := Drifted(change.baseline);
      return Conflict;
    }
    if cs.live {
      change.snapshot := Some(xml);
    }
    var a := ApplyForKind(client, appliers, change, !cs.live);
    match a {
      case Done(text) =>
        change.status := Applied;
        change.appliedAt := Some(cs.now);
        change.result := Response(text);
      case DeviceError =>
        change.status := Failed;
        change.result := Error("apply failed");
      case UnknownKind =>
        change.status := Failed;
        change.result := Error("unknown change kind");
    }
    return change.status;
  }

  /* Profiles */

  datatype Summary = Summary(applied: nat, failed: nat, conflict: nat, verdict: Verdict)

  predicate Apart(cs: seq<ConfigChange>, k: nat)
    requires k < |cs|
  {
    forall i :: 0 <= i < |cs| && i != k ==> cs[i] != cs[k]
  }

  predicate Distinct(cs: seq<ConfigChange>) {
    forall k :: 0 <= k < |cs| ==> Apart(cs, k)
  }

  /** Whether member `i` fails when it is dispatched with all members before it already sent. */
  predicate Fails(appliers: set<string>, replies: Replies, base: nat, members: seq<ConfigChange>, i: nat)
    requires i < |members|
  {
    !AnswerTo(appliers, members[i].kind, ReplyTo(replies, base + i)).Done?
  }

  /** The first member at or after `i` that fails. */
  function FirstFailure(appliers: set<string>, replies: Replies, base: nat, members: seq<ConfigChange>,
                        i: nat): (f: nat)
    requires i <= |members|
    ensures i <= f <= |members|
    ensures forall k :: i <= k < f ==> !Fails(appliers, replies, base, members, k)
    ensures f < |members| ==> Fails(appliers, replies, base, members, f)
    decreases |members| - i
  {
    if i == |members| || Fails(appliers, replies, base, members, i) then i
    else FirstFailure(appliers, replies, base, members, i + 1)
  }

  /** What was sent once the first `n` members have followed `before`. */
  function SentAfter(before: seq<Request>, members: seq<ConfigChange>, n: nat, dryRun: bool): (r: seq<Request>)
    requires n <= |members|
    ensures |r| == |before| + n
  {
    if n == 0 then before else SentAfter(before, members, n - 1, dryRun) + [Request(members[n - 1].id, dryRun)]
  }

  /** How many members the device is sent when the first failure is `f`: the failing one is sent too,
      unless its kind has no applier. */
  function SentCount(appliers: set<string>, members: seq<ConfigChange>, f: nat): (n: nat)
    requires f <= |members|
    ensures f <= n <= |members|
  {
    if f < |members| && members[f].kind in appliers then f + 1 else f
  }

  /** Member `i` after a profile whose first failure is member `f`; `a` is the device's answer to `i`. */
  function MemberOutcome(row: Row, i: nat, f: nat, a: Answer, cs: Circumstances): Row {
    if i <= f then Settled(Saved(row, cs), a, cs)
    else Saved(row, cs).(status := Failed, result := Error("aborted: an earlier profile member failed"))
  }

  function Saved(row: Row, cs: Circumstances): Row {
    row.(snapshot := if cs.live then cs.read else None)
  }

  method AbortMember(c: ConfigChange, cs: Circumstances)
    modifies c
    ensures c.View() == Saved(old(c.View()), cs).(status := Failed,
                                                  result := Error("aborted: an earlier profile member failed"))
  {
    c.snapshot := if cs.live then cs.read else None;
    c.status, c.result := Failed, Error("aborted: an earlier profile member failed");
  }

  method ApplyMember(c: ConfigChange, client: Client, appliers: set<string>, cs: Circumstances) returns (ok: bool)
    modifies c, client
    ensures var a := AnswerTo(appliers, c.kind, ReplyTo(client.replies, |old(client.sent)|));
            ok == a.Done? && c.View() == Settled(Saved(old(c.View()), cs), a, cs)
    ensures client.sent == old(client.sent) + if c.kind in appliers then [Request(c.id, !cs.live)] else []
  {
    c.snapshot := if cs.live then cs.read else None;
    var a := ApplyForKind(client, appliers, c, !cs.live);
    match a {
      case Done(text) =>
        c.result := Response(text);
        c.status, c.appliedAt := Applied, Some(cs.now);
      case DeviceError => c.status, c.result := Failed, Error("apply failed");
      case UnknownKind => c.status, c.result := Failed, Error("unknown change kind");
    }
    ok := a.Done?;
  }

  /** Member `i` after a profile, `base` requests having been sent before. */
  function MemberRow(row: Row, members: seq<ConfigChange>, i: nat, appliers: set<string>, replies: Replies,
                     base: nat, cs: Circumstances): Row
    requires i < |members|
  {
    MemberOutcome(row, i, FirstFailure(appliers, replies, base, members, 0),
                  AnswerTo(appliers, members[i].kind, ReplyTo(replies, base + i)), cs)
  }

  /** What was sent once `n` members were dealt with, the first failure being `f`. */
  function SentBy(before: seq<Request>, members: seq<ConfigChange>, n: nat, appliers: set<string>, f: nat,
                  dryRun: bool): (r: seq<Request>)
    requires n <= |members| && f <= |members|
  {
    var sent := SentCount(appliers, members, f);
    SentAfter(before, members, if n <= sent then n else sent, dryRun)
  }

  /** Deals with member `n`: sends it, or marks it failed unsent after an earlier failure. */
  method ApplyNext(members: seq<ConfigChange>, n: nat, client: Client, appliers: set<string>, cs: Circumstances,
                   aborted: bool, ghost before: seq<Request>) returns (ok: bool)
    requires n < |members|
    requires var f := FirstFailure(appliers, client.replies, |before|, members, 0);
             && (aborted <==> f < n)
             && client.sent == SentBy(before, members, n, appliers, f, !cs.live)
    modifies members[n], client
    ensures members[n].View()
         == MemberRow(old(members[n].View()), members, n, appliers, client.replies, |before|, cs)
    ensures var f := FirstFailure(appliers, client.replies, |before|, members, 0);
            && (ok <==> n < f)
            && client.sent == SentBy(before, members, n + 1, appliers, f, !cs.live)
  {
    ghost var f := FirstFailure(appliers, client.replies, |before|, members, 0);
    if aborted {
      AbortMember(members[n], cs);
      ok := false;
    } else {
      ok := ApplyMember(members[n], client, appliers, cs);
      assert ok == !Fails(appliers, client.replies, |before|, members, n);
    }
  }

  /** Applies the members in order; after the first failure the rest are marked failed unsent. */
  method ApplyMembers(members: seq<ConfigChange>, client: Client, appliers: set<string>, cs: Circumstances)
    returns (applied: nat, failed: nat)
    requires Distinct(members)
    modifies members, client
    ensures var f := FirstFailure(appliers, client.replies, |old(client.sent)|, members, 0);
            && applied == f && failed == |members| - f
            && client.sent == SentBy(old(client.sent), members, |members|, appliers, f, !cs.live)
    ensures forall i :: 0 <= i < |members| ==>
              members[i].View() == MemberRow(old(members[i].View()), members, i, appliers, client.replies,
                                             |old(client.sent)|, cs)
  {
    applied, failed := 0, 0;
    var aborted := false;
    ghost var f := FirstFailure(appliers, client.replies, |client.sent|, members, 0);
    for n := 0 to |members|
      invariant aborted <==> f < n
      invariant applied == (if n <= f then n else f) && failed == n - applied
      invariant client.sent == SentBy(old(client.sent), members, n, appliers, f, !cs.live)
      invariant forall i :: n <= i < |members| ==> members[i].View() == old(members[i].View())
      invariant forall i :: 0 <= i < n ==>
                  members[i].View() == MemberRow(old(members[i].View()), members, i, appliers, client.replies,
                                                 |old(client.sent)|, cs)
    {
      assert Apart(members, n);
      var ok := ApplyNext(members, n, client, appliers, cs, aborted, old(client.sent));
      if ok {
        applied := applied + 1;
      } else {
        failed := failed + 1;
        aborted := true;
      }
    }
  }

  /** The scheduled ones among the first `n`, in order. */
  function ScheduledIn(changes: seq<ConfigChange>, n: nat): (r: seq<ConfigChange>)
    requires n <= |changes|
    reads changes
    ensures |r| <= n
  {
    if n == 0 then []
    else if changes[n - 1].status == Scheduled then ScheduledIn(changes, n - 1) + [changes[n - 1]]
    else ScheduledIn(changes, n - 1)
  }

  lemma {:induction false} ScheduledInSound(changes: seq<ConfigChange>, n: nat, i: nat) returns (k: nat)
    requires n <= |changes| && i < |ScheduledIn(changes, n)|
    ensures k < n && changes[k] == ScheduledIn(changes, n)[i] && changes[k].status == Scheduled
    decreases n
  {
    if i < |ScheduledIn(changes, n - 1)| {
      k := ScheduledInSound(changes, n - 1, i);
    } else {
      k := n - 1;
    }
  }

  lemma {:induction false} ScheduledInComplete(changes: seq<ConfigChange>, n: nat, k: nat)
    requires k < n <= |changes| && changes[k].status == Scheduled
    ensures changes[k] in ScheduledIn(changes, n)
    decreases n
  {
    if k < n - 1 {
      ScheduledInComplete(changes, n - 1, k);
    }
  }

  lemma {:induction false} ScheduledInApart(changes: seq<ConfigChange>, n: nat, i: nat, k: nat)
    requires n <= |changes| && Distinct(changes) && i < k < |ScheduledIn(changes, n)|
    ensures ScheduledIn(changes, n)[i] != ScheduledIn(changes, n)[k]
    decreases n
  {
    if k < |ScheduledIn(changes, n - 1)| {
      ScheduledInApart(changes, n - 1, i, k);
    } else {
      var m := ScheduledInSound(changes, n - 1, i);
      assert Apart(changes, m);
    }
  }

  lemma ScheduledInDistinct(changes: seq<ConfigChange>)
    requires Distinct(changes)
    ensures Distinct(ScheduledIn(changes, |changes|))
  {
    var s := ScheduledIn(changes, |changes|);
    forall k | 0 <= k < |s| ensures Apart(s, k) {
      forall i | 0 <= i < |s| && i != k ensures s[i] != s[k] {
        if i < k {
          ScheduledInApart(changes, |changes|, i, k);
        } else {
          ScheduledInApart(changes, |changes|, k, i);
        }
      }
    }
  }

  method SelectScheduled(changes: seq<ConfigChange>) returns (scheduled: seq<ConfigChange>)
    ensures scheduled == ScheduledIn(changes, |changes|)
  {
    scheduled := [];
    for n := 0 to |changes|
      invariant scheduled == ScheduledIn(changes, n)
    {
      if changes[n].status == Scheduled {
        scheduled := scheduled + [changes[n]];
      }
    }
  }

  method MarkAll(members: seq<ConfigChange>, status: Status, result: Result)
    requires Distinct(members)
    modifies members
    ensures forall i :: 0 <= i < |members| ==>
              members[i].View() == old(members[i].View()).(status := status, result := result)
  {
    for n := 0 to |members|
      invariant forall i :: n <= i < |members| ==> members[i].View() == old(members[i].View())
      invariant forall i :: 0 <= i < n ==>
                  members[i].View() == old(members[i].View()).(status := status, result := result)
    {
      assert Apart(members, n);
      members[n].status, members[n].result := status, result;
    }
  }

  /** How far a profile gets. */
  function ProfileVerdict(env: Setting, members: seq<ConfigChange>, cs: Circumstances): Verdict {
    if members == [] then Noop else Judge(env, members[0].baseline, cs)
  }

  /** Member `i` of the scheduled ones after a profile that got as far as `v`. */
  function ProfileRow(v: Verdict, row: Row, members: seq<ConfigChange>, i: nat, appliers: set<string>,
                      replies: Replies, base: nat, cs: Circumstances): Row
    requires i < |members|
  {
    match v
    case Noop => row
    case LockBusy => row
    case Unreadable => row.(status := Failed, result := Error("could not read current config"))
    case Drift => row.(status := Conflict, result := Drifted(members[0].baseline))
    case Proceed => MemberRow(row, members, i, appliers, replies, base, cs)
  }

  /** The same for member `i` of the scheduled ones of a profile, on the first one's baseline; `failing` says
      that it or an earlier one is refused by the device. */
  ghost predicate MemberHandled(was: Row, now: Row, baseline: string, env: Setting, cs: Circumstances, failing: bool) {
    if !cs.got then now == was
    else
      && (now.status == Conflict || now.status == Applied || now.status == Failed)
      && (now.status == Conflict <==> HasDrifted(env, baseline, cs))
      && (now.status == Applied <==> cs.read.Some? && !HasDrifted(env, baseline, cs) && !failing)
      && now.appliedAt == (if now.status == Applied then Some(cs.now) else was.appliedAt)
      && now.snapshot == (if cs.read.None? || HasDrifted(env, baseline, cs) then was.snapshot
                          else if cs.live then cs.read else None)
      && (now.status == Conflict ==> now.result == Drifted(baseline))
      && (cs.read.None? ==> now.result == Error("could not read current config"))
  }

  lemma ProfileHandled(env: Setting, row: Row, members: seq<ConfigChange>, i: nat, appliers: set<string>,
                       replies: Replies, base: nat, cs: Circumstances)
    requires i < |members|
    ensures MemberHandled(row, ProfileRow(ProfileVerdict(env, members, cs), row, members, i, appliers, replies, base, cs),
                          members[0].baseline, env, cs,
                          exists k :: 0 <= k <= i && Fails(appliers, replies, base, members, k))
  {
    if ProfileVerdict(env, members, cs) == Proceed {
      ProfilePrefix(row, members, i, appliers, replies, base, cs);
      MemberRowKeepsTime(row, members, i, appliers, replies, base, cs);
    }
  }

  lemma MemberRowKeepsTime(row: Row, members: seq<ConfigChange>, i: nat, appliers: set<string>, replies: Replies,
                           base: nat, cs: Circumstances)
    requires i < |members|
    ensures var r := MemberRow(row, members, i, appliers, replies, base, cs);
            r.status != Applied ==> r.appliedAt == row.appliedAt
  {
  }

  function ProfileSummary(v: Verdict, members: seq<ConfigChange>, f: nat): Summary
    requires f <= |members|
  {
    match v
    case Noop => Summary(0, 0, 0, v)
    case LockBusy => Summary(0, 0, 0, v)
    case Unreadable => Summary(0, |members|, 0, v)
    case Drift => Summary(0, 0, |members|, v)
    case Proceed => Summary(f, |members| - f, 0, v)
  }

  /** What the returned summary says: how far the profile got, and how many of the scheduled members are now
      applied, in conflict and failed. */
  ghost predicate Summarises(sum: Summary, env: Setting, rows: seq<Row>, baseline: string, cs: Circumstances) {
    && (sum.verdict == Noop <==> rows == [])
    && (sum.verdict == LockBusy <==> rows != [] && !cs.got)
    && (sum.verdict == Unreadable <==> rows != [] && cs.got && cs.read.None?)
    && (sum.verdict == Drift <==> rows != [] && cs.got && HasDrifted(env, baseline, cs))
    && (rows != [] && cs.got ==>
          && sum.applied + sum.failed + sum.conflict == |rows|
          && (forall i :: 0 <= i < |rows| ==> (rows[i].status == Applied <==> i < sum.applied))
          && sum.conflict == (if HasDrifted(env, baseline, cs) then |rows| else 0))
    && (rows == [] || !cs.got ==> sum.applied == sum.failed == sum.conflict == 0)
  }

  lemma SummaryIs(env: Setting, members: seq<ConfigChange>, was: seq<Row>, rows: seq<Row>, appliers: set<string>,
                  replies: Replies, base: nat, cs: Circumstances)
    requires |was| == |rows| == |members|
    requires forall i :: 0 <= i < |rows| ==>
               rows[i] == ProfileRow(ProfileVerdict(env, members, cs), was[i], members, i, appliers, replies, base, cs)
    ensures var f := FirstFailure(appliers, replies, base, members, 0);
            Summarises(ProfileSummary(ProfileVerdict(env, members, cs), members, f), env, rows,
                       if members == [] then "" else members[0].baseline, cs)
  {
    var f := FirstFailure(appliers, replies, base, members, 0);
    if members != [] {
      forall i | 0 <= i < |rows|
        ensures MemberHandled(was[i], rows[i], members[0].baseline, env, cs, f <= i)
      {
        ProfileHandled(env, was[i], members, i, appliers, replies, base, cs);
        if f <= i {
          assert Fails(appliers, replies, base, members, f);
        }
      }
    }
  }

  function Views(members: seq<ConfigChange>): (r: seq<Row>)
    reads members
    ensures |r| == |members| && forall i :: 0 <= i < |r| ==> r[i] == members[i].View()
  {
    seq(|members|, (i: nat) requires i < |members| reads members => members[i].View())
  }

  /** Applies the scheduled members in order under one lock. */
  method ApplyScheduled(scheduled: seq<ConfigChange>, client: Client, appliers: set<string>, env: Setting,
                        cs: Circumstances) returns (sum: Summary)
    requires Distinct(scheduled)
    modifies scheduled, client
    ensures Summarises(sum, env, Views(scheduled), if scheduled == [] then "" else scheduled[0].baseline, cs)
    ensures var f := FirstFailure(appliers, client.replies, |old(client.sent)|, scheduled, 0);
            var v := ProfileVerdict(env, scheduled, cs);
            client.sent == (if v == Proceed then SentBy(old(client.sent), scheduled, |scheduled|, appliers, f, !cs.live)
                            else old(client.sent))
    ensures forall i :: 0 <= i < |scheduled| ==>
              MemberHandled(old(scheduled[i].View()), scheduled[i].View(), scheduled[0].baseline, env, cs,
                            exists k :: 0 <= k <= i && Fails(appliers, client.replies, |old(client.sent)|, scheduled, k))
    ensures forall i :: 0 <= i < |scheduled| ==>
              scheduled[i].View() == ProfileRow(ProfileVerdict(env, scheduled, cs), old(scheduled[i].View()), scheduled,
                                                i, appliers, client.replies, |old(client.sent)|, cs)
  {
    ghost var was := Views(scheduled);
    sum := RunScheduled(scheduled, client, appliers, env, cs);
    ghost var base := |old(client.sent)|;
    SummaryIs(env, scheduled, was, Views(scheduled), appliers, client.replies, base, cs);
    forall i | 0 <= i < |scheduled|
      ensures MemberHandled(was[i], scheduled[i].View(), scheduled[0].baseline, env, cs,
                            exists k :: 0 <= k <= i && Fails(appliers, client.replies, base, scheduled, k))
    {
      ProfileHandled(env, was[i], scheduled, i, appliers, client.replies, base, cs);
    }
  }

  method RunScheduled(scheduled: seq<ConfigChange>, client: Client, appliers: set<string>, env: Setting,
                      cs: Circumstances) returns (sum: Summary)
    requires Distinct(scheduled)
    modifies scheduled, client
    ensures var f := FirstFailure(appliers, client.replies, |old(client.sent)|, scheduled, 0);
            var v := ProfileVerdict(env, scheduled, cs);
            && sum == ProfileSummary(v, scheduled, f)
            && client.sent == (if v == Proceed then SentBy(old(client.sent), scheduled, |scheduled|, appliers, f, !cs.live)
                               else old(client.sent))
    ensures forall i :: 0 <= i < |scheduled| ==>
              scheduled[i].View() == ProfileRow(ProfileVerdict(env, scheduled, cs), old(scheduled[i].View()), scheduled,
                                                i, appliers, client.replies, |old(client.sent)|, cs)
  {
    if scheduled == [] {
      return Summary(0, 0, 0, Noop);
    }
    if !cs.got {
      return Summary(0, 0, 0, LockBusy);
    }
    if cs.read == None {
      MarkAll(scheduled, Failed, Error("could not read current config"));
      return Summary(0, |scheduled|, 0, Unreadable);
    }
    var baseline := scheduled[0].baseline;
    if baseline != "" && env.hash(cs.read.value) != baseline {
      MarkAll(scheduled, Conflict, Drifted(baseline));
      return Summary(0, 0, |scheduled|, Drift);
    }
    var applied, failed := ApplyMembers(scheduled, client, appliers, cs);
    return Summary(applied, failed, 0, Proceed);
  }

  /** The scheduled members, as a profile finds them. */
  lemma ScheduledMembers(changes: seq<ConfigChange>)
    requires Distinct(changes)
    ensures var scheduled := ScheduledIn(changes, |changes|);
            && Distinct(scheduled) && (forall i :: 0 <= i < |scheduled| ==> scheduled[i] in changes)
            && (forall c :: c in changes ==> (c in scheduled <==> c.status == Scheduled))
  {
    var scheduled := ScheduledIn(changes, |changes|);
    ScheduledInDistinct(changes);
    forall i | 0 <= i < |scheduled| ensures scheduled[i] in changes && scheduled[i].status == Scheduled {
      var k := ScheduledInSound(changes, |changes|, i);
    }
    forall c | c in changes && c.status == Scheduled ensures c in scheduled {
      var k :| 0 <= k < |changes| && changes[k] == c;
      ScheduledInComplete(changes, |changes|, k);
    }
  }

  /** Applies a profile: its scheduled members as above, and nothing happens to the others. */
  method ApplyProfile(changes: seq<ConfigChange>, client: Client, appliers: set<string>, env: Setting,
                      cs: Circumstances) returns (sum: Summary, ghost scheduled: seq<ConfigChange>)
    requires Distinct(changes)
    modifies changes, client
    ensures scheduled == old(ScheduledIn(changes, |changes|))
    ensures forall i :: 0 <= i < |scheduled| ==> scheduled[i] in changes
    ensures forall c :: c in changes ==> (c in scheduled <==> old(c.status) == Scheduled)
    ensures forall c :: c in changes && c !in scheduled ==> c.View() == old(c.View())
    ensures Summarises(sum, env, Views(scheduled), if scheduled == [] then "" else scheduled[0].baseline, cs)
    ensures var f := FirstFailure(appliers, client.replies, |old(client.sent)|, scheduled, 0);
            var v := ProfileVerdict(env, scheduled, cs);
            client.sent == (if v == Proceed then SentBy(old(client.sent), scheduled, |scheduled|, appliers, f, !cs.live)
                            else old(client.sent))
    ensures forall i :: 0 <= i < |scheduled| ==>
              MemberHandled(old(scheduled[i].View()), scheduled[i].View(), scheduled[0].baseline, env, cs,
                            exists k :: 0 <= k <= i && Fails(appliers, client.replies, |old(client.sent)|, scheduled, k))
    ensures forall i :: 0 <= i < |scheduled| ==>
              scheduled[i].View() == ProfileRow(ProfileVerdict(env, scheduled, cs), old(scheduled[i].View()), scheduled,
                                                i, appliers, client.replies, |old(client.sent)|, cs)
    ensures !cs.got ==> client.sent == old(client.sent) && forall c :: c in changes ==> c.View() == old(c.View())
  {
    var members := SelectScheduled(changes);
    ScheduledMembers(changes);
    scheduled := members;
    sum := ApplyScheduled(members, client, appliers, env, cs);
  }

  /** Prefix shape: of a profile that got past the guard the members before the first failure are
      applied, the others failed, and all keep the same rollback snapshot. */
  lemma ProfilePrefix(row: Row, members: seq<ConfigChange>, i: nat, appliers: set<string>, replies: Replies,
                      base: nat, cs: Circumstances)
    requires i < |members|
    ensures var r := ProfileRow(Proceed, row, members, i, appliers, replies, base, cs);
            && r.status == (if forall k :: 0 <= k <= i ==> !Fails(appliers, replies, base, members, k)
                            then Applied else Failed)
            && r.snapshot == (if cs.live then cs.read else None)
            && (r.status == Applied ==> r.result == Response(ReplyTo(replies, base + i).value) && r.appliedAt == Some(cs.now))
            && (r.status == Failed ==>
                  r.result == Error(if exists k :: 0 <= k < i && Fails(appliers, replies, base, members, k)
                                    then "aborted: an earlier profile member failed"
                                    else if members[i].kind in appliers then "apply failed" else "unknown change kind"))
  {
    var f := FirstFailure(appliers, replies, base, members, 0);
    if i < f {
      assert !Fails(appliers, replies, base, members, i);
    } else {
      assert Fails(appliers, replies, base, members, f);
    }
  }

  /** The device is sent, in order, exactly the members before the first failure, and the failing one
      too unless its kind has no applier. */
  lemma {:induction false} ProfileSends(before: seq<Request>, members: seq<ConfigChange>, appliers: set<string>,
                                        replies: Replies, dryRun: bool, i: nat)
    requires i < |members|
    ensures var f := FirstFailure(appliers, replies, |before|, members, 0);
            var r := SentBy(before, members, |members|, appliers, f, dryRun);
            && |r| >= |before| && r[..|before|] == before
            && (|before| + i < |r| <==> i < f || (i == f && members[i].kind in appliers))
            && (|before| + i < |r| ==> r[|before| + i] == Request(members[i].id, dryRun))
  {
    var f := FirstFailure(appliers, replies, |before|, members, 0);
    SentAfterAt(before, members, SentCount(appliers, members, f), dryRun, i);
  }

  lemma {:induction false} SentAfterAt(before: seq<Request>, members: seq<ConfigChange>, n: nat, dryRun: bool, i: nat)
    requires n <= |members|
    ensures var r := SentAfter(before, members, n, dryRun);
            r[..|before|] == before && (i < n ==> r[|before| + i] == Request(members[i].id, dryRun))
    decreases n
  {
    if n > 0 {
      SentAfterAt(before, members, n - 1, dryRun, i);
      assert SentAfter(before, members, n, dryRun)[..|before|] == SentAfter(before, members, n - 1, dryRun)[..|before|];
    }
  }

  /** A profile of one scheduled change does to it what applying it alone does, except that a dry run
      drops an earlier rollback snapshot. */
  lemma ProfileOfOne(c: ConfigChange, row: Row, appliers: set<string>, replies: Replies, base: nat, env: Setting,
                     cs: Circumstances)
    requires row.status == Scheduled
    ensures var v := ProfileVerdict(env, [c], cs);
            ProfileRow(v, row, [c], 0, appliers, replies, base, cs)
            == ApplyOutcome(row, c.baseline, env, cs, AnswerTo(appliers, c.kind, ReplyTo(replies, base)))
            <==> v != Proceed || cs.live || row.snapshot == None
  {
  }

  /** How far a pipeline job is when it has the verdict. */
  function PhaseOf(v: Verdict, live: bool): Phase {
    match v
    case Noop => Over
    case LockBusy => Over
    case Unreadable => Locked
    case Drift => HasRead
    case Proceed => if live then Phase.Saved else Cleared
  }

  /** What a profile, and so a single change, does to its rows is what the pipeline lets a job report: the
      transition system covers the code's outcomes. */
  lemma ProfileFitsPipeline(env: Setting, j: Job, rows: seq<Row>, members: seq<ConfigChange>, appliers: set<string>,
                            replies: Replies, base: nat, cs: Circumstances, outcome: seq<Status>)
    requires members != [] && |rows| == |members| == |j.todo| == |outcome| && cs.got
    requires j.baseline == members[0].baseline && j.phase == PhaseOf(ProfileVerdict(env, members, cs), cs.live)
    requires j.phase != Locked ==> j.xml == cs.read
    requires forall i :: 0 <= i < |rows| ==>
               outcome[i] == ProfileRow(ProfileVerdict(env, members, cs), rows[i], members, i, appliers, replies, base,
                                        cs).status
    requires j.saved == if j.phase == Phase.Saved then j.xml else None
    ensures Reports(env, j, outcome)
    ensures ProfileVerdict(env, members, cs) == Proceed ==>
              forall i :: 0 <= i < |rows| ==>
                ProfileRow(Proceed, rows[i], members, i, appliers, replies, base, cs).snapshot == j.saved
  {
    if ProfileVerdict(env, members, cs) == Proceed {
      forall i | 0 <= i < |outcome| ensures outcome[i] == Applied || outcome[i] == Failed {
        ProfilePrefix(rows[i], members, i, appliers, replies, base, cs);
      }
    }
  }

  /** A first failing member of unknown kind is marked failed and not sent. */
  lemma UnknownKindIsNotSent(c: ConfigChange, before: seq<Request>, appliers: set<string>, replies: Replies, dryRun: bool)
    requires c.kind !in appliers
    ensures var f := FirstFailure(appliers, replies, |before|, [c], 0);
            f == 0 && SentBy(before, [c], 1, appliers, f, dryRun) == before
  {
    assert Fails(appliers, replies, |before|, [c], 0);
  }
}

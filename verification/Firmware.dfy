/** Firmware actions against a device that answers each call in any way: reachable or not, busy or idle, up
    to date or not. */
module Firmware {
  import opened Strings

  const MAX_UPGRADE_STEPS: nat := 6
  const REBOOT_MAX_POLLS: nat := 180
  const STARTUP_GRACE_POLLS: nat := 6

  datatype Version = Version(year: nat, month: nat, point: nat, hotfix: nat)

  /** What the device reports: its status in lower case, the number of updates, the installed version and
      the latest one offered. */
  datatype Report = Report(status: string, updates: int, current: Version, latest: Option<Version>)

  /** The answer to a call. `Refused` is any connector error other than unreachability. */
  datatype Reply = Unreachable | Refused | Answer(report: Report)

  /** The answers of a device to its calls, in order. */
  type Trace = nat -> Reply

  predicate Running(r: Report) {
    r.status == "running"
  }

  predicate UpdatesPending(r: Report) {
    r.status == "ok" || r.updates > 0
  }

  predicate Newer(a: Version, b: Version) {
    a.year > b.year || (a.year == b.year && (a.month > b.month || (a.month == b.month
    && (a.point > b.point || (a.point == b.point && a.hotfix > b.hotfix)))))
  }

  /** A newer version of another series is offered. */
  predicate MajorOffered(r: Report) {
    r.latest.Some? && Newer(r.latest.value, r.current)
    && (r.latest.value.year != r.current.year || r.latest.value.month != r.current.month)
  }

  /** Versions are totally ordered, by year first, then month, point release and hotfix. */
  lemma NewerOrders(a: Version, b: Version, c: Version)
    ensures !Newer(a, a) && (Newer(a, b) || Newer(b, a) || a == b) && !(Newer(a, b) && Newer(b, a))
    ensures Newer(a, b) && Newer(b, c) ==> Newer(a, c)
    ensures a.year > b.year ==> Newer(a, b)
    ensures a.year == b.year && a.month > b.month ==> Newer(a, b)
    ensures a.year == b.year && a.month == b.month && a.point > b.point ==> Newer(a, b)
  {
  }

  /** A new major is offered exactly when the latest version is of a later series. */
  lemma MajorIsLaterSeries(r: Report)
    ensures MajorOffered(r)
       <==> r.latest.Some? && (r.latest.value.year > r.current.year
                               || (r.latest.value.year == r.current.year && r.latest.value.month > r.current.month))
  {
  }

  /* Waiting for a reboot */

  datatype Waited = Waited(back: bool, next: nat)

  /** Probes from call `p` on until one is answered, at most `left` times. */
  function Wait(trace: Trace, p: nat, left: nat): Waited
    decreases left
  {
    if left == 0 then Waited(false, p)
    else match trace(p)
         case Answer(_) => Waited(true, p + 1)
         case Refused => Waited(false, p + 1)
         case Unreachable => Wait(trace, p + 1, left - 1)
  }

  method WaitUntilReachable(trace: Trace, p: nat) returns (w: Waited)
    ensures w == Wait(trace, p, REBOOT_MAX_POLLS)
  {
    var q, left := p, REBOOT_MAX_POLLS;
    while left > 0
      invariant Wait(trace, q, left) == Wait(trace, p, REBOOT_MAX_POLLS)
      decreases left
    {
      match trace(q)
      case Answer(_) => return Waited(true, q + 1);
      case Refused => return Waited(false, q + 1);
      case Unreachable =>
        q, left := q + 1, left - 1;
    }
    w := Waited(false, q);
  }

  /** A wait makes at most `left` probes; it succeeds exactly when the first answered probe is answered
      properly, and every probe before the last one found the device unreachable. */
  lemma {:induction false} WaitMeaning(trace: Trace, p: nat, left: nat)
    ensures var w := Wait(trace, p, left);
            && p <= w.next <= p + left
            && (w.back ==> p < w.next && trace(w.next - 1).Answer?)
            && (!w.back ==> w.next == p + left || (p < w.next && trace(w.next - 1).Refused?))
            && forall q :: p <= q < w.next - 1 ==> trace(q).Unreachable?
    decreases left
  {
    if left > 0 && trace(p).Unreachable? {
      WaitMeaning(trace, p + 1, left - 1);
    }
  }

  /* Polling an operation */

  datatype Polled = Finished(report: Report, next: nat) | Raised(next: nat)

  /** Polls from call `p` on, `left` polls remaining. */
  function Poll(trace: Trace, p: nat, left: nat, seenRunning: bool, idle: nat): Polled
    decreases left
  {
    if left == 0 then Raised(p)
    else match trace(p)
         case Refused => Raised(p + 1)
         case Unreachable =>
           var w := Wait(trace, p + 1, REBOOT_MAX_POLLS);
           if w.back then Poll(trace, w.next, left - 1, true, idle) else Raised(w.next)
         case Answer(report) =>
           if Running(report) then Poll(trace, p + 1, left - 1, true, 0)
           else if seenRunning || idle + 1 >= STARTUP_GRACE_POLLS then Finished(report, p + 1)
           else Poll(trace, p + 1, left - 1, false, idle + 1)
  }

  method PollUntilDone(trace: Trace, p: nat, maxPolls: nat) returns (r: Polled)
    ensures r == Poll(trace, p, maxPolls, false, 0)
  {
    var seenRunning, idle := false, 0;
    var q, left := p, maxPolls;
    while left > 0
      invariant Poll(trace, q, left, seenRunning, idle) == Poll(trace, p, maxPolls, false, 0)
      decreases left
    {
      match trace(q)
      case Refused => return Raised(q + 1);
      case Unreachable =>
        var w := WaitUntilReachable(trace, q + 1);
        if !w.back {
          return Raised(w.next);
        }
        q, left, seenRunning := w.next, left - 1, true;
      case Answer(report) =>
        if Running(report) {
          q, left, seenRunning, idle := q + 1, left - 1, true, 0;
        } else if seenRunning {
          return Finished(report, q + 1);
        } else {
          idle := idle + 1;
          if idle >= STARTUP_GRACE_POLLS {
            return Finished(report, q + 1);
          }
          q, left := q + 1, left - 1;
        }
    }
    r := Raised(q);
  }

  /** The operation was seen under way at call `q`: it was running, or the device had gone away. */
  predicate UnderWay(trace: Trace, q: nat) {
    trace(q).Unreachable? || (trace(q).Answer? && Running(trace(q).report))
  }

  /** The device was idle at call `q`. */
  predicate Idle(trace: Trace, q: nat) {
    trace(q).Answer? && !Running(trace(q).report)
  }

  /** Polling makes at most one call and one wait per poll. */
  lemma {:induction false} PollBounded(trace: Trace, p: nat, left: nat, seenRunning: bool, idle: nat)
    ensures p <= Poll(trace, p, left, seenRunning, idle).next <= p + left * (1 + REBOOT_MAX_POLLS)
    decreases left
  {
    if left > 0 {
      Distribute(left);
      match trace(p)
      case Refused =>
      case Unreachable =>
        var w := Wait(trace, p + 1, REBOOT_MAX_POLLS);
        WaitMeaning(trace, p + 1, REBOOT_MAX_POLLS);
        if w.back {
          PollBounded(trace, w.next, left - 1, true, idle);
        }
      case Answer(report) =>
        if Running(report) {
          PollBounded(trace, p + 1, left - 1, true, 0);
        } else if !seenRunning && idle + 1 < STARTUP_GRACE_POLLS {
          PollBounded(trace, p + 1, left - 1, false, idle + 1);
        }
    }
  }

  lemma Distribute(left: nat)
    requires left > 0
    ensures left * (1 + REBOOT_MAX_POLLS) == (left - 1) * (1 + REBOOT_MAX_POLLS) + 1 + REBOOT_MAX_POLLS
  {
  }

  /** Nothing but idle answers from `p` to before `q`. */
  ghost predicate AllIdle(trace: Trace, p: nat, q: nat) {
    forall i :: p <= i < q ==> Idle(trace, i)
  }

  ghost predicate SeenUnderWay(trace: Trace, p: nat, q: nat) {
    exists i :: p <= i < q && UnderWay(trace, i)
  }

  /** What polling returns is the last answer, and it is not running. */
  lemma {:induction false} PollReturnsLast(trace: Trace, p: nat, left: nat, seenRunning: bool, idle: nat)
    requires Poll(trace, p, left, seenRunning, idle).Finished?
    ensures var r := Poll(trace, p, left, seenRunning, idle);
            p < r.next && trace(r.next - 1) == Answer(r.report) && !Running(r.report)
    decreases left, 1
  {
    if trace(p).Unreachable? {
      PollReturnsAfterWait(trace, p, left, seenRunning, idle);
    } else if Running(trace(p).report) {
      PollReturnsLast(trace, p + 1, left - 1, true, 0);
    } else if !seenRunning && idle + 1 < STARTUP_GRACE_POLLS {
      PollReturnsLast(trace, p + 1, left - 1, false, idle + 1);
    }
  }

  lemma PollReturnsAfterWait(trace: Trace, p: nat, left: nat, seenRunning: bool, idle: nat)
    requires Poll(trace, p, left, seenRunning, idle).Finished? && trace(p).Unreachable?
    ensures var r := Poll(trace, p, left, seenRunning, idle);
            p < r.next && trace(r.next - 1) == Answer(r.report) && !Running(r.report)
    decreases left, 0
  {
    var w := Wait(trace, p + 1, REBOOT_MAX_POLLS);
    WaitAdvances(trace, p + 1, REBOOT_MAX_POLLS);
    PollReturnsLast(trace, w.next, left - 1, true, idle);
  }

  lemma WaitAdvances(trace: Trace, p: nat, left: nat)
    ensures p <= Wait(trace, p, left).next
  {
    WaitMeaning(trace, p, left);
  }

  /** It is justified: the operation was seen under way since `p`, or before, or exactly the remaining
      grace polls found the device idle. */
  lemma {:induction false} PollJustified(trace: Trace, p: nat, left: nat, idle: nat)
    requires Poll(trace, p, left, false, idle).Finished? && idle < STARTUP_GRACE_POLLS
    ensures var r := Poll(trace, p, left, false, idle);
            SeenUnderWay(trace, p, r.next)
            || (r.next == p + STARTUP_GRACE_POLLS - idle && AllIdle(trace, p, r.next))
    decreases left
  {
    PollReturnsLast(trace, p, left, false, idle);
    if UnderWay(trace, p) {
      assert SeenUnderWay(trace, p, Poll(trace, p, left, false, idle).next);
    } else if idle + 1 < STARTUP_GRACE_POLLS {
      PollJustified(trace, p + 1, left - 1, idle + 1);
    }
  }

  /** `poll_until_done` from the start: it returns a non-running status only after the operation was seen
      under way, or after six idle polls and nothing else. */
  lemma PollUntilDoneJustified(trace: Trace, p: nat, maxPolls: nat)
    requires Poll(trace, p, maxPolls, false, 0).Finished?
    ensures var r := Poll(trace, p, maxPolls, false, 0);
            && p < r.next && trace(r.next - 1) == Answer(r.report) && !Running(r.report)
            && (SeenUnderWay(trace, p, r.next)
                || (r.next == p + STARTUP_GRACE_POLLS && AllIdle(trace, p, r.next)))
  {
    PollReturnsLast(trace, p, maxPolls, false, 0);
    PollJustified(trace, p, maxPolls, 0);
  }

  /** The call that follows a poll at call `q`: the device may have to be waited for first. */
  function NextCall(trace: Trace, q: nat): nat {
    if trace(q).Unreachable? then Wait(trace, q + 1, REBOOT_MAX_POLLS).next else q + 1
  }

  /** The call of poll `k`, the first being at call `p`. */
  function PollCall(trace: Trace, p: nat, k: nat): nat
    decreases k
  {
    if k == 0 then p else PollCall(trace, NextCall(trace, p), k - 1)
  }

  /** One of the first `k` polls found the operation under way. */
  ghost predicate SeenBy(trace: Trace, p: nat, k: nat) {
    exists j :: 0 <= j < k && UnderWay(trace, PollCall(trace, p, j))
  }

  /** Poll `k` ends the polling if it gets that far: an error, a device that does not come back, or an idle
      answer after the operation was seen under way or the grace polls are used up. */
  ghost predicate Stops(trace: Trace, p: nat, k: nat, seen: bool, idle: nat) {
    var q := PollCall(trace, p, k);
    match trace(q)
    case Refused => true
    case Unreachable => !Wait(trace, q + 1, REBOOT_MAX_POLLS).back
    case Answer(report) =>
      report.status != "running" && (seen || SeenBy(trace, p, k) || idle + k + 1 >= STARTUP_GRACE_POLLS)
  }

  /** How polling ends at the poll at call `q`. */
  ghost function EndAt(trace: Trace, q: nat): Polled {
    match trace(q)
    case Answer(report) => Finished(report, q + 1)
    case _ => Raised(NextCall(trace, q))
  }

  lemma SeenByNext(trace: Trace, p: nat, k: nat)
    requires k > 0
    ensures SeenBy(trace, p, k) <==> UnderWay(trace, p) || SeenBy(trace, NextCall(trace, p), k - 1)
  {
    assert PollCall(trace, p, 0) == p;
    if SeenBy(trace, p, k) {
      var j :| 0 <= j < k && UnderWay(trace, PollCall(trace, p, j));
      if j > 0 {
        assert PollCall(trace, p, j) == PollCall(trace, NextCall(trace, p), j - 1);
      }
    }
    if SeenBy(trace, NextCall(trace, p), k - 1) {
      var j :| 0 <= j < k - 1 && UnderWay(trace, PollCall(trace, NextCall(trace, p), j));
      assert PollCall(trace, p, j + 1) == PollCall(trace, NextCall(trace, p), j);
    }
  }

  /** One poll that does not end it. */
  lemma PollGoesOn(trace: Trace, p: nat, left: nat, seen: bool, idle: nat) returns (seen': bool, idle': nat)
    requires left > 0 && !Stops(trace, p, 0, seen, idle)
    ensures Poll(trace, p, left, seen, idle) == Poll(trace, NextCall(trace, p), left - 1, seen', idle')
    ensures forall k: nat :: Stops(trace, p, k + 1, seen, idle) <==> Stops(trace, NextCall(trace, p), k, seen', idle')
  {
    assert PollCall(trace, p, 0) == p;
    seen' := seen || UnderWay(trace, p);
    idle' := if trace(p).Unreachable? then idle else if Running(trace(p).report) then 0 else idle + 1;
    forall k: nat ensures Stops(trace, p, k + 1, seen, idle) <==> Stops(trace, NextCall(trace, p), k, seen', idle') {
      SeenByNext(trace, p, k + 1);
      assert PollCall(trace, p, k + 1) == PollCall(trace, NextCall(trace, p), k);
    }
  }

  /** Polling ends as the first poll that stops it says ... */
  lemma {:induction false} PollEndsAt(trace: Trace, p: nat, left: nat, seen: bool, idle: nat, k: nat)
    requires k < left && Stops(trace, p, k, seen, idle) && forall j :: 0 <= j < k ==> !Stops(trace, p, j, seen, idle)
    ensures Poll(trace, p, left, seen, idle) == EndAt(trace, PollCall(trace, p, k))
    decreases left
  {
    if k == 0 {
      assert PollCall(trace, p, k) == p && !SeenBy(trace, p, k);
    } else {
      var seen', idle' := PollGoesOn(trace, p, left, seen, idle);
      forall j | 0 <= j < k - 1 ensures !Stops(trace, NextCall(trace, p), j, seen', idle') {
        assert !Stops(trace, p, j + 1, seen, idle);
      }
      assert Stops(trace, p, k - 1 + 1, seen, idle);
      PollEndsAt(trace, NextCall(trace, p), left - 1, seen', idle', k - 1);
    }
  }

  /** ... and raises when the polls are used up. */
  lemma {:induction false} PollRunsOut(trace: Trace, p: nat, left: nat, seen: bool, idle: nat)
    requires forall j :: 0 <= j < left ==> !Stops(trace, p, j, seen, idle)
    ensures Poll(trace, p, left, seen, idle) == Raised(PollCall(trace, p, left))
    decreases left
  {
    if left > 0 {
      var seen', idle' := PollGoesOn(trace, p, left, seen, idle);
      forall j | 0 <= j < left - 1 ensures !Stops(trace, NextCall(trace, p), j, seen', idle') {
        assert !Stops(trace, p, j + 1, seen, idle);
      }
      PollRunsOut(trace, NextCall(trace, p), left - 1, seen', idle');
    }
  }

  /* Commands and upgrades */

  datatype Command = CheckMirror | Update | Upgrade | Install | Remove

  /** A command issued at call `p` and polled to its end. */
  function Perform(trace: Trace, p: nat, maxPolls: nat): Polled {
    if trace(p).Answer? then Poll(trace, p + 1, maxPolls, false, 0) else Raised(p + 1)
  }

  method PerformCommand(trace: Trace, p: nat, maxPolls: nat) returns (r: Polled)
    ensures r == Perform(trace, p, maxPolls)
  {
    if !trace(p).Answer? {
      return Raised(p + 1);
    }
    r := PollUntilDone(trace, p + 1, maxPolls);
  }

  /** The command at call `p` was taken and seen to its end before call `q`: the device answered it, and then
      was idle after having been under way, or for six polls and nothing else. */
  ghost predicate SeenThrough(trace: Trace, p: nat, q: nat) {
    && p + 1 < q && trace(p).Answer? && trace(q - 1).Answer? && trace(q - 1).report.status != "running"
    && (SeenUnderWay(trace, p + 1, q) || (q == p + 1 + STARTUP_GRACE_POLLS && AllIdle(trace, p + 1, q)))
  }

  lemma PerformSeenThrough(trace: Trace, p: nat, maxPolls: nat)
    ensures match Perform(trace, p, maxPolls)
            case Finished(_, q) => SeenThrough(trace, p, q)
            case Raised(q) => !trace(p).Answer? || Poll(trace, p + 1, maxPolls, false, 0) == Raised(q)
  {
    if Perform(trace, p, maxPolls).Finished? {
      PollUntilDoneJustified(trace, p + 1, maxPolls);
    }
  }

  /** What a mirror check followed by a status request finds. */
  datatype Looked = Saw(report: Report, next: nat) | Blind(next: nat)

  function Look(trace: Trace, p: nat, maxPolls: nat): Looked {
    var check := Perform(trace, p, maxPolls);
    if check.Raised? then Blind(check.next)
    else match trace(check.next)
         case Answer(report) => Saw(report, check.next + 1)
         case _ => Blind(check.next + 1)
  }

  method CheckAndLook(trace: Trace, p: nat, maxPolls: nat) returns (l: Looked)
    ensures l == Look(trace, p, maxPolls)
  {
    var check := PerformCommand(trace, p, maxPolls);
    if check.Raised? {
      return Blind(check.next);
    }
    match trace(check.next)
    case Answer(report) => l := Saw(report, check.next + 1);
    case _ => l := Blind(check.next + 1);
  }

  /** A look sees the answer to the status request that follows a mirror check seen through; it is blind
      exactly when the check was not, or the request is not answered. */
  lemma LookSees(trace: Trace, p: nat, maxPolls: nat)
    ensures match Look(trace, p, maxPolls)
            case Saw(report, q) => q > p + 1 && SeenThrough(trace, p, q - 1) && trace(q - 1) == Answer(report)
            case Blind(q) => Perform(trace, p, maxPolls) == Raised(q)
                             || (q > 0 && !trace(q - 1).Answer? && SeenThrough(trace, p, q - 1))
  {
    PerformSeenThrough(trace, p, maxPolls);
  }

  predicate UpToDate(r: Report) {
    !UpdatesPending(r) && !MajorOffered(r)
  }

  /** The commands of a series of looks: a mirror check each, followed by an upgrade where a new major was
      offered and by an update where only updates were pending. */
  function CommandsFor(seen: seq<Report>, n: nat): seq<Command>
    requires n <= |seen|
  {
    if n == 0 then [] else Issued(CommandsFor(seen, n - 1), seen[n - 1])
  }

  function Issued(sent: seq<Command>, r: Report): seq<Command> {
    var checked := sent + [CheckMirror];
    if UpToDate(r) then checked else checked + [if MajorOffered(r) then Upgrade else Update]
  }

  lemma {:induction false} CommandsForLonger(seen: seq<Report>, r: Report, n: nat)
    requires n <= |seen|
    ensures CommandsFor(seen + [r], n) == CommandsFor(seen, n)
    decreases n
  {
    if n > 0 {
      CommandsForLonger(seen, r, n - 1);
    }
  }

  /** How an upgrade ended: the reports it looked at, the commands it issued, and whether the last report
      was up to date. */
  datatype Upgraded = Upgraded(done: bool, seen: seq<Report>, sent: seq<Command>, next: nat)

  /** An upgrade loop that has taken as many steps as it has seen reports. */
  function UpgradeFrom(trace: Trace, p: nat, maxPolls: nat, seen: seq<Report>, sent: seq<Command>): Upgraded
    requires |seen| <= MAX_UPGRADE_STEPS
    decreases MAX_UPGRADE_STEPS - |seen|
  {
    if |seen| == MAX_UPGRADE_STEPS then Upgraded(false, seen, sent, p)
    else match Look(trace, p, maxPolls)
         case Blind(next) => Upgraded(false, seen, sent + [CheckMirror], next)
         case Saw(report, next) =>
           if UpToDate(report) then Upgraded(true, seen + [report], Issued(sent, report), next)
           else
             var issued := Issued(sent, report);
             var r := Perform(trace, next, maxPolls);
             if r.Raised? then Upgraded(false, seen + [report], issued, r.next)
             else UpgradeFrom(trace, r.next, maxPolls, seen + [report], issued)
  }

  method RunUpgrade(trace: Trace, p: nat, maxPolls: nat) returns (u: Upgraded, steps: nat)
    ensures u == UpgradeFrom(trace, p, maxPolls, [], [])
    ensures u.done ==> steps == |u.seen| - 1
  {
    var seen: seq<Report>, sent: seq<Command> := [], [];
    var q := p;
    steps := 0;
    for k := 0 to MAX_UPGRADE_STEPS
      invariant steps == k == |seen|
      invariant UpgradeFrom(trace, q, maxPolls, seen, sent) == UpgradeFrom(trace, p, maxPolls, [], [])
    {
      var l := CheckAndLook(trace, q, maxPolls);
      if l.Blind? {
        return Upgraded(false, seen, sent + [CheckMirror], l.next), steps;
      }
      if !UpdatesPending(l.report) && !MajorOffered(l.report) {
        return Upgraded(true, seen + [l.report], sent + [CheckMirror], l.next), steps;
      }
      sent := sent + [CheckMirror] + [if MajorOffered(l.report) then Upgrade else Update];
      seen := seen + [l.report];
      var r := PerformCommand(trace, l.next, maxPolls);
      if r.Raised? {
        return Upgraded(false, seen, sent, r.next), steps;
      }
      q := r.next;
      steps := steps + 1;
    }
    u := Upgraded(false, seen, sent, q);
  }

  /** What an upgrade under way has done: it looked at reports none of which was up to date and issued the
      commands for them. */
  ghost predicate Upgrading(seen: seq<Report>, sent: seq<Command>) {
    sent == CommandsFor(seen, |seen|) && forall i :: 0 <= i < |seen| ==> !UpToDate(seen[i])
  }

  /** At most five steps, each answering a report that was not up to date with an upgrade if a new major
      was offered and an update otherwise; the last report, the device's last answer, has neither pending
      updates nor a new major. */
  ghost predicate UpgradedProperly(trace: Trace, u: Upgraded) {
    && 1 <= |u.seen| <= MAX_UPGRADE_STEPS && |u.sent| == 2 * |u.seen| - 1
    && (forall i :: 0 <= i < |u.seen| ==> u.sent[2 * i] == CheckMirror)
    && (forall i :: 0 <= i < |u.seen| - 1 ==> u.sent[2 * i + 1] == if MajorOffered(u.seen[i]) then Upgrade else Update)
    && UpToDate(u.seen[|u.seen| - 1]) && (forall i :: 0 <= i < |u.seen| - 1 ==> !UpToDate(u.seen[i]))
    && u.next > 0 && trace(u.next - 1) == Answer(u.seen[|u.seen| - 1])
  }

  lemma UpgradingMore(seen: seq<Report>, sent: seq<Command>, r: Report)
    requires Upgrading(seen, sent)
    ensures Issued(sent, r) == CommandsFor(seen + [r], |seen| + 1)
    ensures !UpToDate(r) ==> Upgrading(seen + [r], Issued(sent, r))
  {
    CommandsForLonger(seen, r, |seen|);
  }

  /** The commands of an upgrade that ends with an up-to-date report. */
  lemma UpgradeCommands(seen: seq<Report>, sent: seq<Command>, r: Report)
    requires Upgrading(seen, sent) && UpToDate(r)
    ensures var all, issued := seen + [r], Issued(sent, r);
            && |issued| == 2 * |all| - 1
            && (forall i :: 0 <= i < |all| ==> issued[2 * i] == CheckMirror)
            && (forall i :: 0 <= i < |all| - 1 ==> issued[2 * i + 1] == if MajorOffered(all[i]) then Upgrade else Update)
  {
    CommandsAre(seen, |seen|);
  }

  /** An upgrade that ends done ended properly. */
  lemma {:induction false} UpgradeDone(trace: Trace, p: nat, maxPolls: nat, seen: seq<Report>, sent: seq<Command>)
    requires |seen| <= MAX_UPGRADE_STEPS && UpgradeFrom(trace, p, maxPolls, seen, sent).done && Upgrading(seen, sent)
    ensures UpgradedProperly(trace, UpgradeFrom(trace, p, maxPolls, seen, sent))
    decreases MAX_UPGRADE_STEPS - |seen|
  {
    var l := Look(trace, p, maxPolls);
    UpgradingMore(seen, sent, l.report);
    LookSees(trace, p, maxPolls);
    if UpToDate(l.report) {
      UpgradeCommands(seen, sent, l.report);
    } else {
      UpgradeDone(trace, Perform(trace, l.next, maxPolls).next, maxPolls, seen + [l.report], Issued(sent, l.report));
    }
  }

  /** An upgrade that is not done looked at no report that was up to date, and six steps were not enough, or
      a look or a command failed; its commands are those for the reports, after a failed look with one more
      mirror check. */
  ghost predicate UpgradeBroken(trace: Trace, maxPolls: nat, u: Upgraded) {
    && |u.seen| <= MAX_UPGRADE_STEPS && (forall i :: 0 <= i < |u.seen| ==> !UpToDate(u.seen[i]))
    && (|u.seen| == MAX_UPGRADE_STEPS || (exists q :: Look(trace, q, maxPolls) == Blind(u.next))
        || (exists q :: Perform(trace, q, maxPolls) == Raised(u.next)))
    && (u.sent == CommandsFor(u.seen, |u.seen|) || u.sent == CommandsFor(u.seen, |u.seen|) + [CheckMirror])
  }

  lemma {:induction false} UpgradeNotDone(trace: Trace, p: nat, maxPolls: nat, seen: seq<Report>, sent: seq<Command>)
    requires |seen| <= MAX_UPGRADE_STEPS && !UpgradeFrom(trace, p, maxPolls, seen, sent).done && Upgrading(seen, sent)
    ensures UpgradeBroken(trace, maxPolls, UpgradeFrom(trace, p, maxPolls, seen, sent))
    decreases MAX_UPGRADE_STEPS - |seen|
  {
    if |seen| < MAX_UPGRADE_STEPS {
      var l := Look(trace, p, maxPolls);
      if l.Saw? {
        UpgradingMore(seen, sent, l.report);
        var r := Perform(trace, l.next, maxPolls);
        if r.Finished? {
          UpgradeNotDone(trace, r.next, maxPolls, seen + [l.report], Issued(sent, l.report));
        }
      }
    }
  }

  /** What the commands are: one mirror check per report, each followed by the step for its report. */
  lemma {:induction false} CommandsAre(seen: seq<Report>, n: nat)
    requires n <= |seen| && forall i :: 0 <= i < n ==> !UpToDate(seen[i])
    ensures |CommandsFor(seen, n)| == 2 * n
    ensures forall i :: 0 <= i < n ==>
              && CommandsFor(seen, n)[2 * i] == CheckMirror
              && CommandsFor(seen, n)[2 * i + 1] == if MajorOffered(seen[i]) then Upgrade else Update
    decreases n
  {
    if n > 0 {
      CommandsAre(seen, n - 1);
    }
  }

  /** Every upgrade, done or not, stays within a fixed number of calls. */
  lemma {:induction false} UpgradeBounded(trace: Trace, p: nat, maxPolls: nat, seen: seq<Report>, sent: seq<Command>)
    requires |seen| <= MAX_UPGRADE_STEPS
    ensures var each := 3 + 2 * (maxPolls * (1 + REBOOT_MAX_POLLS));
            UpgradeFrom(trace, p, maxPolls, seen, sent).next <= p + (MAX_UPGRADE_STEPS - |seen|) * each
    decreases MAX_UPGRADE_STEPS - |seen|
  {
    var each := 3 + 2 * (maxPolls * (1 + REBOOT_MAX_POLLS));
    if |seen| < MAX_UPGRADE_STEPS {
      var l := Look(trace, p, maxPolls);
      LookBounded(trace, p, maxPolls);
      OneMore(MAX_UPGRADE_STEPS - |seen|, each);
      if l.Saw? && !UpToDate(l.report) {
        var r := Perform(trace, l.next, maxPolls);
        PerformBounded(trace, l.next, maxPolls);
        if r.Finished? {
          UpgradeBounded(trace, r.next, maxPolls, seen + [l.report], Issued(sent, l.report));
        }
      }
    }
  }

  lemma OneMore(n: nat, each: nat)
    requires n > 0
    ensures n * each == (n - 1) * each + each && (n - 1) * each >= 0
  {
  }

  lemma PerformBounded(trace: Trace, p: nat, maxPolls: nat)
    ensures p < Perform(trace, p, maxPolls).next <= p + 1 + maxPolls * (1 + REBOOT_MAX_POLLS)
  {
    PollBounded(trace, p + 1, maxPolls, false, 0);
  }

  lemma LookBounded(trace: Trace, p: nat, maxPolls: nat)
    ensures p < Look(trace, p, maxPolls).next <= p + 2 + maxPolls * (1 + REBOOT_MAX_POLLS)
  {
    PerformBounded(trace, p, maxPolls);
  }

  /* Actions */

  datatype Kind = PluginRemove | PluginInstall | FirmwareUpdate | FirmwareUpgrade | UnknownKind

  datatype Status = Scheduled | InProgress | Done | Failed | Cancelled

  datatype Result = NoResult | Problem(text: string) | Completed(steps: Option<int>, version: Version)

  class FirmwareAction {
    const kind: Kind
    var status: Status
    var result: Result
    var appliedAt: Option<int>

    constructor (kind: Kind)
      ensures this.kind == kind && status == Scheduled && result == NoResult && appliedAt == None
    {
      this.kind := kind;
      status, result, appliedAt := Scheduled, NoResult, None;
    }
  }

  /** How the commands of an action went. */
  datatype Work = Work(problem: Option<string>, steps: Option<int>, sent: seq<Command>, next: nat)

  function OneCommand(trace: Trace, p: nat, maxPolls: nat, before: seq<Command>, c: Command): Work {
    var r := Perform(trace, p, maxPolls);
    Work(if r.Raised? then Some("action failed") else None, None, before + [c], r.next)
  }

  /** The work of an action from call `p` on. */
  function WorkOf(kind: Kind, trace: Trace, p: nat, maxPolls: nat): Work {
    match kind
    case PluginRemove => OneCommand(trace, p, maxPolls, [], Remove)
    case FirmwareUpdate => OneCommand(trace, p, maxPolls, [], Update)
    case PluginInstall =>
      (match Look(trace, p, maxPolls)
       case Blind(next) => Work(Some("action failed"), None, [CheckMirror], next)
       case Saw(report, next) =>
         if UpdatesPending(report)
         then Work(Some("device must be up to date before installing plugins"), None, [CheckMirror], next)
         else OneCommand(trace, next, maxPolls, [CheckMirror], Install))
    case FirmwareUpgrade =>
      var u := UpgradeFrom(trace, p, maxPolls, [], []);
      Work(if u.done then None else Some("action failed"), if u.done then Some(|u.seen| - 1) else None, u.sent, u.next)
    case UnknownKind => Work(Some("unknown action kind"), None, [], p)
  }

  method DoWork(kind: Kind, trace: Trace, p: nat, maxPolls: nat) returns (w: Work)
    ensures w == WorkOf(kind, trace, p, maxPolls)
  {
    match kind
    case PluginRemove =>
      var r := PerformCommand(trace, p, maxPolls);
      w := Work(if r.Raised? then Some("action failed") else None, None, [Remove], r.next);
    case PluginInstall =>
      var l := CheckAndLook(trace, p, maxPolls);
      if l.Blind? {
        return Work(Some("action failed"), None, [CheckMirror], l.next);
      }
      if UpdatesPending(l.report) {
        return Work(Some("device must be up to date before installing plugins"), None, [CheckMirror], l.next);
      }
      var r := PerformCommand(trace, l.next, maxPolls);
      w := Work(if r.Raised? then Some("action failed") else None, None, [CheckMirror, Install], r.next);
    case FirmwareUpdate =>
      var r := PerformCommand(trace, p, maxPolls);
      w := Work(if r.Raised? then Some("action failed") else None, None, [Update], r.next);
    case FirmwareUpgrade =>
      var u, steps := RunUpgrade(trace, p, maxPolls);
      w := Work(if u.done then None else Some("action failed"), if u.done then Some(steps) else None, u.sent, u.next);
    case UnknownKind => w := Work(Some("unknown action kind"), None, [], p);
  }

  /** Runs an action if it is still to be run and the device's lock is free. It ends done exactly when its
      work raised no problem and the device then told its version. */
  method RunFirmwareAction(action: FirmwareAction, got: bool, trace: Trace, maxPolls: nat, now: int)
    returns (status: Status, ghost sent: seq<Command>)
    modifies action
    ensures status == action.status
    ensures var w := WorkOf(action.kind, trace, 0, maxPolls);
            if (old(action.status) != Scheduled && old(action.status) != InProgress) || !got then
              && sent == [] && action.status == old(action.status) && action.result == old(action.result)
              && action.appliedAt == old(action.appliedAt)
            else
              && sent == w.sent
              && (if w.problem == None && trace(w.next).Answer? then
                    && action.status == Done && action.appliedAt == Some(now)
                    && action.result == Completed(w.steps, trace(w.next).report.current)
                  else
                    && action.status == Failed && action.appliedAt == old(action.appliedAt)
                    && action.result == Problem(if w.problem.Some? then w.problem.value else "action failed"))
  {
    sent := [];
    if (action.status != Scheduled && action.status != InProgress) || !got {
      return action.status, sent;
    }
    action.status := InProgress;
    var w := DoWork(action.kind, trace, 0, maxPolls);
    sent := w.sent;
    if w.problem.Some? {
      action.status, action.result := Failed, Problem(w.problem.value);
      return Failed, sent;
    }
    match trace(w.next) {
      case Answer(report) =>
        action.status, action.appliedAt := Done, Some(now);
        action.result := Completed(w.steps, report.current);
      case _ =>
        action.status, action.result := Failed, Problem("action failed");
    }
    return action.status, sent;
  }

  /** A plugin is installed only on a device whose last status report, answered after a finished mirror
      check, has no pending updates. */
  lemma InstallNeedsUpToDate(trace: Trace, p: nat, maxPolls: nat)
    requires Install in WorkOf(PluginInstall, trace, p, maxPolls).sent
    ensures var l := Look(trace, p, maxPolls);
            && l.Saw? && l.next > p + 1 && SeenThrough(trace, p, l.next - 1) && trace(l.next - 1) == Answer(l.report)
            && l.report.status != "ok" && l.report.updates <= 0
  {
    LookSees(trace, p, maxPolls);
  }

  /** What every kind of action sends, and when its work meets a problem: the one command of a removal or an
      update; a mirror check and, on a device without pending updates, the installation; nothing for an
      unknown kind; and in an upgrade the steps for the reports it saw. */
  lemma WorkSends(kind: Kind, trace: Trace, p: nat, maxPolls: nat)
    ensures var w := WorkOf(kind, trace, p, maxPolls);
            match kind
            case PluginRemove => w.sent == [Remove] && (w.problem == None <==> Perform(trace, p, maxPolls).Finished?)
            case FirmwareUpdate => w.sent == [Update] && (w.problem == None <==> Perform(trace, p, maxPolls).Finished?)
            case PluginInstall =>
              var l := Look(trace, p, maxPolls);
              && w.sent == (if l.Saw? && l.report.status != "ok" && l.report.updates <= 0 then [CheckMirror, Install]
                            else [CheckMirror])
              && (w.problem == None <==> |w.sent| == 2 && Perform(trace, l.next, maxPolls).Finished?)
            case FirmwareUpgrade =>
              && (w.problem == None <==> UpgradeFrom(trace, p, maxPolls, [], []).done)
              && (w.problem.Some? ==> w.steps == None && UpgradeBroken(trace, maxPolls, UpgradeFrom(trace, p, maxPolls, [], [])))
            case UnknownKind => w.sent == [] && w.next == p && w.problem == Some("unknown action kind")
    ensures kind != FirmwareUpgrade ==> WorkOf(kind, trace, p, maxPolls).steps == None
  {
    if kind == FirmwareUpgrade && !UpgradeFrom(trace, p, maxPolls, [], []).done {
      UpgradeNotDone(trace, p, maxPolls, [], []);
    }
  }

  /** An upgrade action without a problem ended properly, in at most five steps. */
  lemma UpgradeActionDone(trace: Trace, p: nat, maxPolls: nat)
    requires WorkOf(FirmwareUpgrade, trace, p, maxPolls).problem == None
    ensures var w, u := WorkOf(FirmwareUpgrade, trace, p, maxPolls), UpgradeFrom(trace, p, maxPolls, [], []);
            && UpgradedProperly(trace, u) && w.sent == u.sent && w.steps == Some(|u.seen| - 1) && |u.seen| - 1 <= 5
            && (var last := u.seen[|u.seen| - 1]; last.status != "ok" && last.updates <= 0)
  {
    UpgradeDone(trace, p, maxPolls, [], []);
  }
}

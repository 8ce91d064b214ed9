/** Reports against retention: a schedule that needs more days than are kept is refused when submitted and
    warned about when retention is lowered later. */
module ReportRetention {
  import opened Strings
  import opened Retention
  import ReportSchedule

  /** One entry of a report's section map. */
  datatype Section = Section(name: string, on: bool)

  /** The retention-bounded stores a section reads. */
  function SectionStores(name: string): seq<string> {
    match name
    case "failed_logins" => ["perimeter"]
    case "firewall_blocks" => ["perimeter"]
    case "attacks" => ["events"]
    case "attacker_countries" => ["events"]
    case "applications" => ["events"]
    case "web_filter" => ["events"]
    case "web" => ["events"]
    case "health" => ["metrics"]
    case "data" => ["metrics"]
    case "status" => ["metrics"]
    case "summary" => ["events", "metrics"]
    case "alerts_wan" => ["metrics"]
    case _ => []
  }

  /** Some enabled section among the first `n` reads the store. */
  predicate Reads(sections: seq<Section>, n: nat, store: string)
    requires n <= |sections|
  {
    n > 0 && (Reads(sections, n - 1, store)
              || (sections[n - 1].on && store in SectionStores(sections[n - 1].name)))
  }

  function ToSet(xs: seq<string>): (r: set<string>)
    ensures forall x :: x in r <==> x in xs
  {
    set x | x in xs
  }

  method StoresForSections(sections: seq<Section>) returns (used: set<string>)
    ensures forall s :: s in used <==> Reads(sections, |sections|, s)
  {
    used := {};
    for n := 0 to |sections|
      invariant forall s :: s in used <==> Reads(sections, n, s)
    {
      if sections[n].on {
        used := used + ToSet(SectionStores(sections[n].name));
      }
    }
  }

  /** The retention settings in force for a tenant. */
  datatype Settings = Settings(defaults: map<string, int>, overrides: Overrides)

  function Days(st: Settings, store: string): int {
    EffectiveDays(Get(st.overrides, store), if store in st.defaults then st.defaults[store] else 0)
  }

  datatype Limit = Unlimited | Limit(store: string, days: int)

  /** The store kept for the fewest days. */
  method LimitingStore(st: Settings, sections: seq<Section>) returns (limit: Limit)
    ensures limit == Unlimited ==> forall s :: !Reads(sections, |sections|, s)
    ensures limit != Unlimited ==>
              && Reads(sections, |sections|, limit.store) && limit.days == Days(st, limit.store)
              && forall s :: Reads(sections, |sections|, s) ==> limit.days <= Days(st, s)
  {
    var left := StoresForSections(sections);
    ghost var all := left;
    limit := Unlimited;
    while left != {}
      invariant left <= all
      invariant limit == Unlimited <==> left == all
      invariant limit != Unlimited ==>
                  && limit.store in all && limit.days == Days(st, limit.store)
                  && forall s :: s in all - left ==> limit.days <= Days(st, s)
      decreases |left|
    {
      var s :| s in left;
      var days := Days(st, s);
      if limit == Unlimited || days < limit.days {
        limit := Limit(s, days);
      }
      left := left - {s};
    }
    if limit == Unlimited {
      forall s ensures !Reads(sections, |sections|, s) {
        assert s !in all;
      }
    } else {
      assert all - left == all;
    }
  }

  type Frequency = ReportSchedule.Frequency

  function RangeDays(f: Frequency): Option<int> {
    match f
    case Weekly => Some(7)
    case Monthly => Some(30)
    case _ => None
  }

  /** The schedule needs more days than some store it reads is kept. */
  ghost predicate OverLong(st: Settings, f: Frequency, sections: seq<Section>) {
    RangeDays(f).Some? && exists s :: Reads(sections, |sections|, s) && Days(st, s) < RangeDays(f).value
  }

  /** The retention check of a submitted schedule, whose frequency is known. */
  method RefusesSchedule(st: Settings, f: Frequency, sections: seq<Section>) returns (refused: bool)
    requires !f.Unknown?
    ensures refused <==> OverLong(st, f, sections)
  {
    if f.OnDemand? {
      return false;
    }
    var limit := LimitingStore(st, sections);
    refused := limit != Unlimited && RangeDays(f).value > limit.days;
    if refused {
      assert Reads(sections, |sections|, limit.store) && Days(st, limit.store) < RangeDays(f).value;
    }
  }

  datatype Schedule = Schedule(id: nat, enabled: bool, frequency: Frequency, sections: seq<Section>)

  datatype Warning = Warning(id: nat, rangeDays: int, bound: int, store: string)

  /** A correct warning for a schedule. */
  ghost predicate WarnsOf(st: Settings, s: Schedule, w: Warning) {
    && w.id == s.id && RangeDays(s.frequency) == Some(w.rangeDays) && w.bound < w.rangeDays
    && Reads(s.sections, |s.sections|, w.store) && w.bound == Days(st, w.store)
    && forall x :: Reads(s.sections, |s.sections|, x) ==> w.bound <= Days(st, x)
  }

  ghost predicate Warned(st: Settings, s: Schedule) {
    s.enabled && OverLong(st, s.frequency, s.sections)
  }

  /** How many of the first `n` schedules are warned about. */
  ghost function WarnedCount(st: Settings, schedules: seq<Schedule>, n: nat): (r: nat)
    requires n <= |schedules|
    ensures r <= n
  {
    if n == 0 then 0 else WarnedCount(st, schedules, n - 1) + if Warned(st, schedules[n - 1]) then 1 else 0
  }

  method WarningFor(st: Settings, s: Schedule) returns (w: Option<Warning>)
    ensures w.Some? <==> Warned(st, s)
    ensures w.Some? ==> WarnsOf(st, s, w.value)
  {
    if !s.enabled || s.frequency.OnDemand? {
      return None;
    }
    var range := RangeDays(s.frequency);
    if range == None {
      return None;
    }
    var limit := LimitingStore(st, s.sections);
    if limit != Unlimited && range.value > limit.days {
      w := Some(Warning(s.id, range.value, limit.days, limit.store));
      assert Reads(s.sections, |s.sections|, limit.store) && Days(st, limit.store) < range.value;
    } else {
      w := None;
    }
  }

  /** One warning, with its limiting store, for each schedule that is over-long now, in order. */
  method ScheduleWarnings(st: Settings, schedules: seq<Schedule>) returns (ws: seq<Warning>)
    ensures |ws| == WarnedCount(st, schedules, |schedules|)
    ensures forall i :: 0 <= i < |schedules| && Warned(st, schedules[i]) ==>
              WarnsOf(st, schedules[i], ws[WarnedBefore(st, schedules, i)])
  {
    ws := [];
    for n := 0 to |schedules|
      invariant |ws| == WarnedCount(st, schedules, n)
      invariant forall i :: 0 <= i < n && Warned(st, schedules[i]) ==>
                  WarnedBefore(st, schedules, i) < |ws| && WarnsOf(st, schedules[i], ws[WarnedBefore(st, schedules, i)])
    {
      var w := WarningFor(st, schedules[n]);
      if w.Some? {
        ws := ws + [w.value];
      }
    }
  }

  /** The place of a warning: the number of warned schedules before it. */
  ghost function WarnedBefore(st: Settings, schedules: seq<Schedule>, i: nat): (r: nat)
    requires i < |schedules| && Warned(st, schedules[i])
    ensures r < WarnedCount(st, schedules, |schedules|)
  {
    WarnedCountGrows(st, schedules, i + 1, |schedules|);
    WarnedCount(st, schedules, i)
  }

  lemma {:induction false} WarnedCountGrows(st: Settings, schedules: seq<Schedule>, m: nat, n: nat)
    requires m <= n <= |schedules|
    ensures WarnedCount(st, schedules, m) <= WarnedCount(st, schedules, n)
    decreases n
  {
    if m < n {
      WarnedCountGrows(st, schedules, m, n - 1);
    }
  }

  /** Every store is kept no longer than before. */
  ghost predicate Lowered(before: Settings, after: Settings) {
    forall s :: Days(after, s) <= Days(before, s)
  }

  /** Lowering retention never removes a warning. */
  lemma LoweringKeepsWarnings(before: Settings, after: Settings, s: Schedule)
    requires Lowered(before, after) && Warned(before, s)
    ensures Warned(after, s)
  {
    var x :| Reads(s.sections, |s.sections|, x) && Days(before, x) < RangeDays(s.frequency).value;
    assert Days(after, x) <= Days(before, x);
  }

  /** Setting an override for a store to fewer days than it had lowers retention. */
  lemma SmallerOverrideLowers(st: Settings, store: string, days: int)
    requires MIN_DAYS <= days <= MAX_DAYS && days <= Days(st, store)
    ensures Lowered(st, st.(overrides := Merge(st.overrides, [Edit(store, Some(days))], 1)))
  {
    var patch := [Edit(store, Some(days))];
    var after := st.(overrides := Merge(st.overrides, patch, 1));
    assert Merge(st.overrides, patch, 0) == st.overrides;
    forall s ensures Days(after, s) <= Days(st, s) {
    }
  }
}

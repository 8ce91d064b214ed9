/** What any sequence of limiter operations comes to: which keys are remembered, which failures are
    counted, and what a denied caller may expect after waiting. */
module LimiterRuns {
  import opened Strings
  import opened RateLimiter

  datatype Op =
    | Check(key: Key, now: real, limit: int, window: real)
    | Fail(key: Key, now: real)
    | Reset(key: Key)

  function Do(t: Table, op: Op, maxKeys: nat): Table {
    match op
    case Check(key, now, _, window) => Checked(t, key, now, window, maxKeys)
    case Fail(key, now) => Recorded(t, key, now, maxKeys)
    case Reset(key) => Forgotten(t, key)
  }

  /** Operation `k` leads from the `k`-th table to the next. */
  ghost predicate StepAt(ts: seq<Table>, ops: seq<Op>, maxKeys: nat, k: nat)
    requires k < |ops| && |ts| == |ops| + 1
  {
    ts[k + 1] == Do(ts[k], ops[k], maxKeys)
  }

  /** A run: the tables `ts` a new limiter goes through with the operations `ops`. */
  ghost predicate Trace(ts: seq<Table>, ops: seq<Op>, maxKeys: nat) {
    |ts| == |ops| + 1 && ts[0] == Table([], map[]) && forall k :: 0 <= k < |ops| ==> StepAt(ts, ops, maxKeys, k)
  }

  /** Every sequence of operations has its run. */
  lemma {:induction false} RunExists(ops: seq<Op>, maxKeys: nat) returns (ts: seq<Table>)
    ensures Trace(ts, ops, maxKeys)
    decreases |ops|
  {
    if ops == [] {
      ts := [Table([], map[])];
    } else {
      var n := |ops| - 1;
      var before := RunExists(ops[..n], maxKeys);
      ts := before + [Do(before[n], ops[n], maxKeys)];
      forall k | 0 <= k < |ops| ensures StepAt(ts, ops, maxKeys, k) {
        if k < n {
          assert StepAt(before, ops[..n], maxKeys, k);
        }
      }
    }
  }

  /** The answer given to the check at `n`. */
  function AnswerAt(ts: seq<Table>, ops: seq<Op>, n: nat): Answer
    requires n < |ops| < |ts| && ops[n].Check?
  {
    var op := ops[n];
    Verdict(Expire(Find(ts[n], op.key), op.now - op.window), op.now, op.limit, op.window)
  }

  /* Eviction */

  /** The last `n` elements, or all if there are fewer. */
  function Suffix(xs: seq<Key>, n: nat): (r: seq<Key>)
    ensures |r| == if |xs| > n then n else |xs|
  {
    if |xs| > n then xs[|xs| - n..] else xs
  }

  /** `u` remembers only what `t` does. */
  ghost predicate Within(u: Table, t: Table) {
    forall x :: x in u.hits ==> x in t.hits && u.hits[x] == t.hits[x]
  }

  lemma WithinTwice(a: Table, b: Table, c: Table)
    requires Within(a, b) && Within(b, c)
    ensures Within(a, c)
  {
  }

  lemma SuffixOfTail(xs: seq<Key>, n: nat)
    requires |xs| > n
    ensures Suffix(xs[1..], n) == Suffix(xs, n)
  {
  }

  lemma {:induction false} EvictKeepsSuffix(t: Table, maxKeys: nat)
    requires Valid(t)
    ensures Valid(Evict(t, maxKeys)) && Evict(t, maxKeys).order == Suffix(t.order, maxKeys)
    ensures Within(Evict(t, maxKeys), t)
    decreases |t.order|
  {
    if |t.order| > maxKeys {
      var u := PopFront(t);
      assert Valid(u) && Within(u, t) by {
        PopFrontValid(t);
      }
      EvictKeepsSuffix(u, maxKeys);
      WithinTwice(Evict(u, maxKeys), u, t);
      SuffixOfTail(t.order, maxKeys);
    }
  }

  lemma TouchKeepsSuffix(t: Table, key: Key, maxKeys: nat)
    requires Valid(t)
    ensures var u := Touch(t, key, maxKeys);
            && Valid(u) && u.order == Suffix(Without(t.order, key) + [key], maxKeys)
            && OthersKept(t, u, key) && (maxKeys > 0 ==> key in u.hits)
  {
    MoveToEndValid(t, key);
    EvictKeepsSuffix(MoveToEnd(t, key), maxKeys);
    var u := Touch(t, key, maxKeys);
    if maxKeys > 0 {
      assert u.order[|u.order| - 1] == key;
    }
  }

  /** Every key but `key` that `u` remembers has the failures it had in `t`. */
  ghost predicate OthersKept(t: Table, u: Table, key: Key) {
    forall x :: x in u.hits && x != key ==> x in t.hits && u.hits[x] == t.hits[x]
  }

  lemma StoreEffect(t: Table, u: Table, key: Key, dq: seq<real>)
    requires Valid(u) && OthersKept(t, u, key)
    ensures var v := Store(u, key, dq);
            && Valid(v) && v.order == u.order && OthersKept(t, v, key) && (key in v.hits <==> key in u.hits)
            && (key in v.hits ==> v.hits[key] == dq)
  {
  }

  function NewHits(t: Table, op: Op): seq<real> {
    match op
    case Check(key, now, _, window) => Expire(Find(t, key), now - window)
    case Fail(key, now) => Find(t, key) + [now]
    case Reset(_) => []
  }

  /** One operation: the table stays valid, and every remembered key has its old failures, expired,
      extended or as they were. */
  lemma DoEffect(t: Table, op: Op, maxKeys: nat)
    requires Valid(t)
    ensures var u := Do(t, op, maxKeys);
            && Valid(u) && OthersKept(t, u, op.key)
            && (op.Reset? ==> op.key !in u.hits && u.order == Without(t.order, op.key))
            && (!op.Reset? ==> u.order == Suffix(Without(t.order, op.key) + [op.key], maxKeys))
            && (op.key in u.hits ==> u.hits[op.key] == NewHits(t, op))
            && (!op.Reset? && maxKeys > 0 ==> op.key in u.hits)
  {
    if op.Reset? {
      ForgottenValid(t, op.key);
      if op.key !in t.order {
        OthersAbsent(t.order, |t.order|, op.key);
        assert t.order[..|t.order|] == t.order;
      }
    } else {
      TouchKeepsSuffix(t, op.key, maxKeys);
      StoreEffect(t, Touch(t, op.key, maxKeys), op.key, NewHits(t, op));
    }
  }

  lemma {:induction false} OthersAbsent(xs: seq<Key>, n: nat, x: Key)
    requires n <= |xs| && x !in xs[..n]
    ensures OthersTo(xs, n, x) == xs[..n]
    decreases n
  {
    if n > 0 {
      assert xs[..n] == xs[..n - 1] + [xs[n - 1]];
      OthersAbsent(xs, n - 1, x);
    }
  }

  lemma {:induction false} AlwaysValid(ts: seq<Table>, ops: seq<Op>, n: nat, maxKeys: nat)
    requires Trace(ts, ops, maxKeys) && n <= |ops|
    ensures Valid(ts[n])
    decreases n
  {
    if n > 0 {
      AlwaysValid(ts, ops, n - 1, maxKeys);
      StepEffect(ts, ops, n - 1, maxKeys);
    }
  }

  /** What `DoEffect` says of one step of a run. */
  lemma StepEffect(ts: seq<Table>, ops: seq<Op>, k: nat, maxKeys: nat)
    requires Trace(ts, ops, maxKeys) && k < |ops| && Valid(ts[k])
    ensures var op, u := ops[k], ts[k + 1];
            && Valid(u) && OthersKept(ts[k], u, op.key)
            && (op.Reset? ==> op.key !in u.hits && u.order == Without(ts[k].order, op.key))
            && (!op.Reset? ==> u.order == Suffix(Without(ts[k].order, op.key) + [op.key], maxKeys))
            && (op.key in u.hits ==> u.hits[op.key] == NewHits(ts[k], op))
            && (!op.Reset? && maxKeys > 0 ==> op.key in u.hits)
  {
    assert StepAt(ts, ops, maxKeys, k);
    DoEffect(ts[k], ops[k], maxKeys);
  }

  /** Memory is bounded, and a key just touched is never the one evicted. */
  lemma {:induction false} MemoryBounded(ts: seq<Table>, ops: seq<Op>, n: nat, maxKeys: nat)
    requires Trace(ts, ops, maxKeys) && n <= |ops|
    ensures |ts[n].order| <= maxKeys
    ensures n > 0 && maxKeys > 0 && !ops[n - 1].Reset? ==> ops[n - 1].key in ts[n].hits
    decreases n
  {
    if n > 0 {
      MemoryBounded(ts, ops, n - 1, maxKeys);
      AlwaysValid(ts, ops, n - 1, maxKeys);
      StepEffect(ts, ops, n - 1, maxKeys);
    }
  }

  /* Least recently used */

  /** All keys touched by the first `n` operations, most recently touched last. */
  function Recent(ops: seq<Op>, n: nat): seq<Key>
    requires n <= |ops|
  {
    if n == 0 then [] else Without(Recent(ops, n - 1), ops[n - 1].key) + [ops[n - 1].key]
  }

  /** The last operation among the first `n` that touched `key`, or -1. */
  function LastTouch(ops: seq<Op>, n: nat, key: Key): (i: int)
    requires n <= |ops|
    ensures -1 <= i < n
  {
    if n == 0 then -1 else if ops[n - 1].key == key then n - 1 else LastTouch(ops, n - 1, key)
  }

  /** Listed by the time of their last touch. */
  ghost predicate Chronological(ops: seq<Op>, n: nat, xs: seq<Key>)
    requires n <= |ops|
  {
    forall i, k :: 0 <= i < k < |xs| ==> LastTouch(ops, n, xs[i]) < LastTouch(ops, n, xs[k])
  }

  /** `Recent` lists exactly the touched keys ... */
  lemma {:induction false} RecentMembers(ops: seq<Op>, n: nat, x: Key)
    requires n <= |ops|
    ensures x in Recent(ops, n) <==> LastTouch(ops, n, x) >= 0
    decreases n
  {
    if n > 0 {
      RecentMembers(ops, n - 1, x);
      WithoutMembers(Recent(ops, n - 1), ops[n - 1].key, x);
    }
  }

  /** Touching a key moves it to the end of the chronological list. */
  lemma TouchChronological(ops: seq<Op>, n: nat, xs: seq<Key>, rest: seq<Key>)
    requires 0 < n <= |ops| && Chronological(ops, n - 1, rest) && rest == Without(xs, ops[n - 1].key)
    ensures Chronological(ops, n, rest + [ops[n - 1].key])
  {
    var key := ops[n - 1].key;
    forall i | 0 <= i < |rest| ensures rest[i] != key {
      WithoutMembers(xs, key, rest[i]);
    }
    assert forall i :: 0 <= i < |rest| ==> LastTouch(ops, n, rest[i]) == LastTouch(ops, n - 1, rest[i]);
  }

  /** ... by the time of their last touch. */
  lemma {:induction false} RecentByLastTouch(ops: seq<Op>, n: nat)
    requires n <= |ops|
    ensures Chronological(ops, n, Recent(ops, n))
    decreases n
  {
    if n > 0 {
      var before, key := Recent(ops, n - 1), ops[n - 1].key;
      RecentByLastTouch(ops, n - 1);
      OthersChronological(ops, n - 1, before, |before|, key);
      TouchChronological(ops, n, before, Without(before, key));
    }
  }

  lemma {:induction false} OthersChronological(ops: seq<Op>, n: nat, xs: seq<Key>, m: nat, x: Key)
    requires n <= |ops| && Chronological(ops, n, xs) && m <= |xs|
    ensures Chronological(ops, n, OthersTo(xs, m, x))
    decreases m
  {
    if m > 0 {
      OthersChronological(ops, n, xs, m - 1, x);
      var r := OthersTo(xs, m - 1, x);
      forall i | 0 <= i < |r| ensures LastTouch(ops, n, r[i]) < LastTouch(ops, n, xs[m - 1]) {
        OthersMembers(xs, m - 1, x, r[i]);
      }
    }
  }

  lemma RecentDistinct(ops: seq<Op>, n: nat)
    requires n <= |ops|
    ensures forall i, k :: 0 <= i < k < |Recent(ops, n)| ==> Recent(ops, n)[i] != Recent(ops, n)[k]
  {
    RecentByLastTouch(ops, n);
  }

  lemma {:induction false} OthersOfPart(xs: seq<Key>, lo: nat, n: nat, x: Key)
    requires lo + n <= |xs|
    ensures OthersTo(xs, lo + n, x) == OthersTo(xs, lo, x) + OthersTo(xs[lo..], n, x)
    decreases n
  {
    if n > 0 {
      OthersOfPart(xs, lo, n - 1, x);
    }
  }

  lemma {:induction false} OthersDropOne(xs: seq<Key>, n: nat, x: Key)
    requires n <= |xs| && forall i, k :: 0 <= i < k < |xs| ==> xs[i] != xs[k]
    ensures |OthersTo(xs, n, x)| >= n - 1
    decreases n
  {
    if n > 0 {
      if xs[n - 1] == x {
        OthersAbsent(xs, n - 1, x);
      } else {
        OthersDropOne(xs, n - 1, x);
      }
    }
  }

  /** Forgetting the front before or after a touch makes no difference. */
  lemma SuffixTouch(xs: seq<Key>, key: Key, n: nat)
    requires forall i, k :: 0 <= i < k < |xs| ==> xs[i] != xs[k]
    ensures Suffix(Without(Suffix(xs, n), key) + [key], n) == Suffix(Without(xs, key) + [key], n)
  {
    if |xs| > n {
      var lo, back := |xs| - n, Suffix(xs, n);
      OthersOfPart(xs, lo, n, key);
      OthersDropOne(back, n, key);
      assert Without(xs, key) + [key] == OthersTo(xs, lo, key) + (Without(back, key) + [key]);
    }
  }

  /** The table remembers the `maxKeys` keys touched last by the first `n` operations, in order. */
  ghost predicate HoldsRecent(t: Table, ops: seq<Op>, n: nat, maxKeys: nat)
    requires n <= |ops|
  {
    t.order == Suffix(Recent(ops, n), maxKeys)
  }

  /** Over any run without resets the remembered keys are exactly the `maxKeys` most recently touched
      ones, in order. */
  lemma {:induction false} LruExact(ts: seq<Table>, ops: seq<Op>, n: nat, maxKeys: nat)
    requires Trace(ts, ops, maxKeys) && n <= |ops| && forall i :: 0 <= i < n ==> !ops[i].Reset?
    ensures HoldsRecent(ts[n], ops, n, maxKeys)
    decreases n
  {
    if n == 0 {
      assert Recent(ops, n) == [];
    } else {
      var k := n - 1;
      LruExact(ts, ops, k, maxKeys);
      LruNext(ts, ops, k, maxKeys);
    }
  }

  lemma LruNext(ts: seq<Table>, ops: seq<Op>, n: nat, maxKeys: nat)
    requires Trace(ts, ops, maxKeys) && n < |ops| && !ops[n].Reset? && HoldsRecent(ts[n], ops, n, maxKeys)
    ensures HoldsRecent(ts[n + 1], ops, n + 1, maxKeys)
  {
    var recent := Recent(ops, n);
    AlwaysValid(ts, ops, n, maxKeys);
    StepEffect(ts, ops, n, maxKeys);
    assert forall i, k :: 0 <= i < k < |recent| ==> recent[i] != recent[k] by {
      RecentDistinct(ops, n);
    }
    SuffixTouch(recent, ops[n].key, maxKeys);
  }

  /* Which failures count */

  /** Operations carry nondecreasing times. */
  ghost predicate Timely(ops: seq<Op>) {
    forall i, k :: 0 <= i < k < |ops| && !ops[i].Reset? && !ops[k].Reset? ==> ops[i].now <= ops[k].now
  }

  /** The first operation of the stretch up to `n` in which `key` was remembered throughout: what came
      before was undone by a reset or an eviction. */
  function Since(ts: seq<Table>, n: nat, key: Key): (m: nat)
    requires n < |ts|
    ensures m <= n
    decreases n
  {
    if n == 0 || key !in ts[n].hits then n
    else if key in ts[n - 1].hits then Since(ts, n - 1, key)
    else n - 1
  }

  predicate ChecksKey(op: Op, key: Key) {
    op.Check? && op.key == key
  }

  predicate FailsKey(op: Op, key: Key) {
    op.Fail? && op.key == key
  }

  /** The failure at `i` is inside the window of every check of its key that followed before `n`. */
  ghost predicate Survives(ops: seq<Op>, i: nat, n: nat, key: Key)
    requires i < n <= |ops| && ops[i].Fail?
  {
    forall j :: i < j < n && ChecksKey(ops[j], key) ==> ops[i].now > ops[j].now - ops[j].window
  }

  /** The times of the failures of `key` from `m` to before `i` that survive all checks before `n`. */
  ghost function Surviving(ops: seq<Op>, m: nat, i: nat, n: nat, key: Key): (r: seq<real>)
    requires m <= i <= n <= |ops|
    decreases i
  {
    if i == m then []
    else if FailsKey(ops[i - 1], key) && Survives(ops, i - 1, n, key)
    then Surviving(ops, m, i - 1, n, key) + [ops[i - 1].now]
    else Surviving(ops, m, i - 1, n, key)
  }

  function LaterThan(xs: seq<real>, bound: real): (r: seq<real>)
    ensures |r| <= |xs|
  {
    if xs == [] then []
    else if xs[|xs| - 1] > bound then LaterThan(xs[..|xs| - 1], bound) + [xs[|xs| - 1]]
    else LaterThan(xs[..|xs| - 1], bound)
  }

  predicate Ascending(xs: seq<real>) {
    forall i, k :: 0 <= i < k < |xs| ==> xs[i] <= xs[k]
  }

  lemma {:induction false} LaterThanAll(xs: seq<real>, bound: real)
    requires forall i :: 0 <= i < |xs| ==> xs[i] > bound
    ensures LaterThan(xs, bound) == xs
    decreases |xs|
  {
    if xs != [] {
      LaterThanAll(xs[..|xs| - 1], bound);
    }
  }

  lemma {:induction false} LaterThanTail(xs: seq<real>, bound: real)
    requires xs != [] && xs[0] <= bound
    ensures LaterThan(xs, bound) == LaterThan(xs[1..], bound)
    decreases |xs|
  {
    var n := |xs| - 1;
    if n > 0 {
      LaterThanTail(xs[..n], bound);
      assert xs[..n][1..] == xs[1..][..n - 1];
    }
  }

  /** Among ascending times, dropping the leading old ones drops all old ones. */
  lemma {:induction false} ExpireIsFilter(dq: seq<real>, bound: real)
    requires Ascending(dq)
    ensures Expire(dq, bound) == LaterThan(dq, bound)
    decreases |dq|
  {
    if dq != [] && dq[0] <= bound {
      ExpireIsFilter(dq[1..], bound);
      LaterThanTail(dq, bound);
    } else {
      LaterThanAll(dq, bound);
    }
  }

  /** A further operation that is no check of `key` leaves the survivors as they are. */
  lemma {:induction false} SurvivingQuiet(ops: seq<Op>, m: nat, i: nat, n: nat, key: Key)
    requires m <= i <= n < |ops| && !ChecksKey(ops[n], key)
    ensures Surviving(ops, m, i, n + 1, key) == Surviving(ops, m, i, n, key)
    decreases i
  {
    if i > m {
      SurvivingQuiet(ops, m, i - 1, n, key);
      if FailsKey(ops[i - 1], key) {
        assert Survives(ops, i - 1, n + 1, key) <==> Survives(ops, i - 1, n, key);
      }
    }
  }

  /** A check keeps the survivors inside its window. */
  lemma {:induction false} SurvivingCheck(ops: seq<Op>, m: nat, i: nat, n: nat, key: Key)
    requires m <= i <= n < |ops| && ChecksKey(ops[n], key)
    ensures Surviving(ops, m, i, n + 1, key)
         == LaterThan(Surviving(ops, m, i, n, key), ops[n].now - ops[n].window)
    decreases i
  {
    if i > m {
      SurvivingCheck(ops, m, i - 1, n, key);
      if FailsKey(ops[i - 1], key) {
        assert Survives(ops, i - 1, n + 1, key)
          <==> Survives(ops, i - 1, n, key) && ops[i - 1].now > ops[n].now - ops[n].window;
      }
    }
  }

  lemma {:induction false} SurvivingEarlier(ops: seq<Op>, m: nat, i: nat, n: nat, key: Key, bound: real)
    requires m <= i <= n <= |ops|
    requires forall k :: m <= k < i && ops[k].Fail? ==> ops[k].now <= bound
    ensures forall k :: 0 <= k < |Surviving(ops, m, i, n, key)| ==> Surviving(ops, m, i, n, key)[k] <= bound
    decreases i
  {
    if i > m {
      SurvivingEarlier(ops, m, i - 1, n, key, bound);
    }
  }

  lemma {:induction false} SurvivingAscending(ops: seq<Op>, m: nat, i: nat, n: nat, key: Key)
    requires m <= i <= n <= |ops| && Timely(ops)
    ensures Ascending(Surviving(ops, m, i, n, key))
    decreases i
  {
    if i > m {
      SurvivingAscending(ops, m, i - 1, n, key);
      if FailsKey(ops[i - 1], key) {
        SurvivingEarlier(ops, m, i - 1, n, key, ops[i - 1].now);
      }
    }
  }

  /** What one operation does to the failure times of `key` while it is remembered. */
  function TimesAfter(dq: seq<real>, op: Op, key: Key): seq<real> {
    if ChecksKey(op, key) then Expire(dq, op.now - op.window)
    else if FailsKey(op, key) then dq + [op.now]
    else dq
  }

  lemma HitsStep(ts: seq<Table>, ops: seq<Op>, k: nat, key: Key, maxKeys: nat)
    requires Trace(ts, ops, maxKeys) && k < |ops| && key in ts[k + 1].hits
    ensures ts[k + 1].hits[key] == TimesAfter(Find(ts[k], key), ops[k], key)
    ensures key in ts[k].hits || ChecksKey(ops[k], key) || FailsKey(ops[k], key)
  {
    AlwaysValid(ts, ops, k, maxKeys);
    StepEffect(ts, ops, k, maxKeys);
  }

  /** One more operation on a key whose failure times are the survivors. */
  lemma DequeStep(ops: seq<Op>, m: nat, n: nat, key: Key)
    requires m <= n < |ops| && Timely(ops)
    ensures Surviving(ops, m, n + 1, n + 1, key) == TimesAfter(Surviving(ops, m, n, n, key), ops[n], key)
  {
    var dq := Surviving(ops, m, n, n, key);
    assert Surviving(ops, m, n + 1, n + 1, key)
        == Surviving(ops, m, n, n + 1, key) + if FailsKey(ops[n], key) then [ops[n].now] else [];
    if ChecksKey(ops[n], key) {
      SurvivingCheck(ops, m, n, n, key);
      SurvivingAscending(ops, m, n, n, key);
      ExpireIsFilter(dq, ops[n].now - ops[n].window);
    } else {
      SurvivingQuiet(ops, m, n, n, key);
    }
  }

  /** A remembered key's failure times are exactly its failures since its last reset or eviction that lie
      inside the window of every check of it that followed. */
  lemma {:induction false} DequeExact(ts: seq<Table>, ops: seq<Op>, n: nat, key: Key, maxKeys: nat)
    requires Trace(ts, ops, maxKeys) && n <= |ops| && Timely(ops) && key in ts[n].hits
    ensures ts[n].hits[key] == Surviving(ops, Since(ts, n, key), n, n, key)
    decreases n
  {
    if n > 0 {
      HitsStep(ts, ops, n - 1, key, maxKeys);
      DequeStep(ops, Since(ts, n, key), n - 1, key);
      if key in ts[n - 1].hits {
        DequeExact(ts, ops, n - 1, key, maxKeys);
      }
    }
  }

  /* What a check answers */

  /** The times of the failures of `key` from `m` to before `n` that are later than `bound`. */
  function FailuresAfter(ops: seq<Op>, m: nat, n: nat, key: Key, bound: real): (r: seq<real>)
    requires m <= n <= |ops|
    decreases n
  {
    if n == m then []
    else if FailsKey(ops[n - 1], key) && ops[n - 1].now > bound
    then FailuresAfter(ops, m, n - 1, key, bound) + [ops[n - 1].now]
    else FailuresAfter(ops, m, n - 1, key, bound)
  }

  /** If no check looked further than `bound`, survival does not matter above it. */
  lemma {:induction false} WindowIsFilter(ops: seq<Op>, m: nat, i: nat, n: nat, key: Key, bound: real)
    requires m <= i <= n <= |ops|
    requires forall j :: 0 <= j < n && ChecksKey(ops[j], key) ==> ops[j].now - ops[j].window <= bound
    ensures LaterThan(Surviving(ops, m, i, n, key), bound) == FailuresAfter(ops, m, i, key, bound)
    decreases i
  {
    if i > m {
      WindowIsFilter(ops, m, i - 1, n, key, bound);
      if FailsKey(ops[i - 1], key) && ops[i - 1].now > bound {
        assert Survives(ops, i - 1, n, key);
      }
    }
  }

  /** With a fixed window a check allows the attempt exactly when fewer than `limit` failures since the
      key's last reset or eviction lie in the window; with a nonpositive limit and no such failure it
      raises. */
  lemma AllowsExactlyWhen(ts: seq<Table>, ops: seq<Op>, n: nat, maxKeys: nat)
    requires Trace(ts, ops, maxKeys) && n < |ops| && Timely(ops) && ops[n].Check?
    requires forall j :: 0 <= j < n && ChecksKey(ops[j], ops[n].key) ==> ops[j].window == ops[n].window
    ensures var op := ops[n];
            var recent := FailuresAfter(ops, Since(ts, n, op.key), n, op.key, op.now - op.window);
            && (AnswerAt(ts, ops, n) == Allowed <==> |recent| < op.limit)
            && (AnswerAt(ts, ops, n) == IndexError <==> recent == [] && op.limit <= 0)
  {
    var op := ops[n];
    var t, m, bound := ts[n], Since(ts, n, op.key), op.now - op.window;
    if op.key in t.hits {
      DequeExact(ts, ops, n, op.key, maxKeys);
      SurvivingAscending(ops, m, n, n, op.key);
      ExpireIsFilter(t.hits[op.key], bound);
      WindowIsFilter(ops, m, n, n, op.key, bound);
    }
  }

  /* Waiting */

  /** What is left of ascending times after expiry is fewer than `limit` exactly when the `limit`-th from
      the end expires. */
  lemma {:induction false} ExpireCount(dq: seq<real>, bound: real, limit: nat)
    requires Ascending(dq) && 1 <= limit <= |dq|
    ensures |Expire(dq, bound)| < limit <==> dq[|dq| - limit] <= bound
    decreases |dq|
  {
    if dq[0] <= bound && limit < |dq| {
      ExpireCount(dq[1..], bound, limit);
    }
  }

  /** After a denial, a caller who waits `wait` (no new failure, same limit and window) is let in exactly
      when the `limit`-th latest failure has left the window by then. */
  lemma RetryExactlyWhen(dq: seq<real>, now: real, limit: int, window: real, wait: real)
    requires Ascending(dq) && limit >= 1 && Verdict(dq, now, limit, window).Denied?
    ensures Verdict(Expire(dq, now + wait - window), now + wait, limit, window) == Allowed
        <==> dq[|dq| - limit] <= now + wait - window
  {
    ExpireCount(dq, now + wait - window, limit);
  }

  /** So when exactly `limit` failures lie in the window, the returned waiting time suffices. */
  lemma RetryAfterSuffices(dq: seq<real>, now: real, limit: int, window: real, wait: real)
    requires Ascending(dq) && limit >= 1 && |dq| == limit && Verdict(dq, now, limit, window).Denied?
    requires wait >= Verdict(dq, now, limit, window).retryAfter as real
    ensures Verdict(Expire(dq, now + wait - window), now + wait, limit, window) == Allowed
  {
    RetryExactlyWhen(dq, now, limit, window, wait);
  }

  /** The returned waiting time is the time until the oldest counted failure leaves the window, rounded up
      by at most a second. */
  lemma RetryWithinASecond(all: seq<real>, now: real, limit: int, window: real)
    requires Verdict(Expire(all, now - window), now, limit, window).Denied?
    ensures var dq, r := Expire(all, now - window), Verdict(Expire(all, now - window), now, limit, window).retryAfter;
            dq != [] && (r - 1) as real <= window - (now - dq[0]) < r as real
  {
    ExpireStops(all, now - window);
  }

  /** Truncation is toward zero. */
  lemma TruncateTowardZero(x: real)
    ensures x >= 0.0 ==> 0.0 <= Truncate(x) as real <= x < (Truncate(x) + 1) as real
    ensures x <= 0.0 ==> (Truncate(x) - 1) as real < x <= Truncate(x) as real <= 0.0
  {
  }

  /** A denied caller is always told to wait for at least a second, and for no more than that when the oldest
      failure has left the window already. */
  lemma WaitsAtLeastASecond(dq: seq<real>, now: real, limit: int, window: real)
    requires Verdict(dq, now, limit, window).Denied?
    ensures var r := Verdict(dq, now, limit, window).retryAfter;
            r >= 1 && (dq[0] <= now - window ==> r == 1)
  {
    TruncateTowardZero(window - (now - dq[0]));
  }

  lemma {:induction false} ExpireStops(all: seq<real>, bound: real)
    ensures var dq := Expire(all, bound); dq != [] ==> dq[0] > bound
    decreases |all|
  {
    if all != [] && all[0] <= bound {
      ExpireStops(all[1..], bound);
    }
  }

  lemma {:induction false} FindQuiet(ts: seq<Table>, ops: seq<Op>, m: nat, n: nat, key: Key, maxKeys: nat)
    requires Trace(ts, ops, maxKeys) && m <= n <= |ops| && forall i :: m <= i < n ==> ops[i].key != key
    ensures Find(ts[n], key) == Find(ts[m], key) || Find(ts[n], key) == []
    decreases n
  {
    if m < n {
      FindQuiet(ts, ops, m, n - 1, key, maxKeys);
      if key in ts[n].hits {
        HitsStep(ts, ops, n - 1, key, maxKeys);
      }
    }
  }

  /** In any run: a caller denied with exactly `limit` failures in its window, who waits the returned time
      without touching the key, is let in, whatever other keys do meanwhile. */
  lemma RetrySucceeds(ts: seq<Table>, ops: seq<Op>, m: nat, n: nat, maxKeys: nat)
    requires Trace(ts, ops, maxKeys) && m < n < |ops| && Timely(ops) && maxKeys > 0 && ops[m].Check? && ops[n].Check?
    requires ops[n].key == ops[m].key && ops[n].limit == ops[m].limit && ops[n].window == ops[m].window
    requires forall i :: m < i < n ==> ops[i].key != ops[m].key
    requires AnswerAt(ts, ops, m).Denied? && ops[m].limit >= 1
    requires |Expire(Find(ts[m], ops[m].key), ops[m].now - ops[m].window)| == ops[m].limit
    requires ops[n].now >= ops[m].now + AnswerAt(ts, ops, m).retryAfter as real
    ensures AnswerAt(ts, ops, n) == Allowed
  {
    var op, t := ops[m], ts[m];
    var dq := Expire(Find(t, op.key), op.now - op.window);
    FindQuiet(ts, ops, m + 1, n, op.key, maxKeys);
    AfterCheck(ts, ops, m, maxKeys);
    RetryAfterSuffices(dq, op.now, op.limit, op.window, ops[n].now - op.now);
  }

  lemma AfterCheck(ts: seq<Table>, ops: seq<Op>, m: nat, maxKeys: nat)
    requires Trace(ts, ops, maxKeys) && m < |ops| && Timely(ops) && maxKeys > 0 && ops[m].Check?
    ensures var dq := Expire(Find(ts[m], ops[m].key), ops[m].now - ops[m].window);
            Find(ts[m + 1], ops[m].key) == dq && Ascending(dq)
  {
    var key := ops[m].key;
    AlwaysValid(ts, ops, m, maxKeys);
    StepEffect(ts, ops, m, maxKeys);
    DequeExact(ts, ops, m + 1, key, maxKeys);
    SurvivingAscending(ops, Since(ts, m + 1, key), m + 1, m + 1, key);
  }

  /** With more failures than the limit it may not: two failures three seconds apart, a limit of one. */
  lemma RetryAfterMayNotSuffice()
    ensures var dq, r := [0.0, 3.0], Verdict([0.0, 3.0], 4.0, 1, 10.0);
            r == Denied(7) && Verdict(Expire(dq, 11.0 - 10.0), 11.0, 1, 10.0) == Denied(3)
  {
    assert [0.0, 3.0][1..] == [3.0];
    assert Expire([3.0], 1.0) == [3.0];
  }
}

/** Repeated polls of a growing log: the rollup built poll by poll against the rollup of the whole log. */
module PerimeterRuns {
  import opened Strings
  import opened Perimeter

  /** Poll `k` sees the first `marks[k]` entries of the log. */
  ghost predicate Growing(log: seq<Entry>, marks: seq<nat>) {
    && (forall k :: 0 <= k < |marks| ==> marks[k] <= |log|)
    && (forall k :: 0 < k < |marks| ==> marks[k - 1] <= marks[k])
  }

  /** How much of the log the first `n` polls have seen. */
  function Seen(marks: seq<nat>, n: nat): nat
    requires n <= |marks|
  {
    if n == 0 then 0 else marks[n - 1]
  }

  ghost function CursorAfter(log: seq<Entry>, marks: seq<nat>, n: nat): Option<int>
    requires Growing(log, marks) && n <= |marks|
    decreases n
  {
    if n == 0 then None else Latest(log, marks[n - 1], CursorAfter(log, marks, n - 1))
  }

  /** The row of `ip` after `n` polls. */
  ghost function RowAfter(log: seq<Entry>, marks: seq<nat>, n: nat, ip: Ip): Option<Rollup>
    requires Growing(log, marks) && n <= |marks|
    decreases n
  {
    if n == 0 then None
    else Merge(RowAfter(log, marks, n - 1, ip), NewTimes(log, marks[n - 1], CursorAfter(log, marks, n - 1), ip))
  }

  /** The row of `ip` computed at once from the first `n` entries: exact count, first and last time. */
  function Batch(log: seq<Entry>, n: nat, ip: Ip): Option<Rollup>
    requires n <= |log|
  {
    Merge(None, NewTimes(log, n, None, ip))
  }

  /** A poll that returns a prefix of the log does what the prefix says. */
  lemma {:induction false} PollOfPrefix(log: seq<Entry>, m: nat, n: nat, cursor: Option<int>, ip: Ip)
    requires n <= m <= |log|
    ensures NewTimes(log[..m], n, cursor, ip) == NewTimes(log, n, cursor, ip)
    ensures Latest(log[..m], n, cursor) == Latest(log, n, cursor)
    decreases n
  {
    if n > 0 {
      PollOfPrefix(log, m, n - 1, cursor, ip);
    }
  }

  /* The cursor is the latest time seen */

  lemma {:induction false} LatestBounds(log: seq<Entry>, n: nat, m: nat, i: nat)
    requires i < n <= m <= |log| && log[i].time.Some?
    ensures !Later(log[i].time.value, Latest(log, n, None))
    decreases n
  {
    if i < n - 1 {
      LatestBounds(log, n - 1, m, i);
    }
  }

  lemma {:induction false} LatestAgain(log: seq<Entry>, a: nat, n: nat)
    requires n <= a <= |log|
    ensures Latest(log, n, Latest(log, a, None)) == Latest(log, a, None)
    decreases n
  {
    if n > 0 {
      LatestAgain(log, a, n - 1);
      if log[n - 1].time.Some? {
        LatestBounds(log, a, a, n - 1);
      }
    }
  }

  lemma {:induction false} LatestResumes(log: seq<Entry>, a: nat, n: nat)
    requires a <= n <= |log|
    ensures Latest(log, n, Latest(log, a, None)) == Latest(log, n, None)
    decreases n
  {
    if n == a {
      LatestAgain(log, a, a);
    } else {
      LatestResumes(log, a, n - 1);
    }
  }

  /** After any number of polls the cursor is the latest time in the part of the log seen. */
  lemma {:induction false} CursorIsLatest(log: seq<Entry>, marks: seq<nat>, n: nat)
    requires Growing(log, marks) && n <= |marks|
    ensures CursorAfter(log, marks, n) == Latest(log, Seen(marks, n), None)
    decreases n
  {
    if n > 0 {
      CursorIsLatest(log, marks, n - 1);
      LatestResumes(log, Seen(marks, n - 1), marks[n - 1]);
    }
  }

  /* Nothing is counted twice, and what is late is lost */

  lemma {:induction false} OldNotCounted(log: seq<Entry>, a: nat, n: nat, ip: Ip)
    requires n <= a <= |log|
    ensures NewTimes(log, n, Latest(log, a, None), ip) == []
    decreases n
  {
    if n > 0 {
      OldNotCounted(log, a, n - 1, ip);
      if log[n - 1].time.Some? {
        LatestBounds(log, a, a, n - 1);
      }
    }
  }

  /** Entry `i` concerns `ip` but is not later than what was seen in the first `a` entries. */
  predicate LateAt(log: seq<Entry>, a: nat, i: nat, ip: Ip)
    requires a <= |log| && i < |log|
  {
    log[i].ip == ip && log[i].time.Some? && !Later(log[i].time.value, Latest(log, a, None))
  }

  /** The late entries from `a` to before `n`. */
  function LateCount(log: seq<Entry>, a: nat, n: nat, ip: Ip): (r: nat)
    requires a <= n <= |log|
    decreases n
  {
    if n == a then 0 else LateCount(log, a, n - 1, ip) + if LateAt(log, a, n - 1, ip) then 1 else 0
  }

  lemma {:induction false} PollAdds(log: seq<Entry>, a: nat, n: nat, ip: Ip)
    requires a <= n <= |log|
    ensures var added := NewTimes(log, n, Latest(log, a, None), ip);
            && |NewTimes(log, n, None, ip)| == |NewTimes(log, a, None, ip)| + |added| + LateCount(log, a, n, ip)
            && (LateCount(log, a, n, ip) == 0 ==>
                  NewTimes(log, n, None, ip) == NewTimes(log, a, None, ip) + added)
    decreases n
  {
    if n == a {
      OldNotCounted(log, a, a, ip);
    } else {
      PollAdds(log, a, n - 1, ip);
    }
  }

  /* Merging */

  lemma {:induction false} MaxOfConcat(xs: seq<int>, ys: seq<int>)
    requires xs != [] && ys != []
    ensures MaxOf(xs + ys) == Greatest(MaxOf(xs), MaxOf(ys))
    decreases |ys|
  {
    var n := |ys| - 1;
    assert (xs + ys)[..|xs + ys| - 1] == xs + ys[..n];
    if n == 0 {
      assert xs + ys[..0] == xs;
    } else {
      MaxOfConcat(xs, ys[..n]);
    }
  }

  lemma {:induction false} MinOfConcat(xs: seq<int>, ys: seq<int>)
    requires xs != [] && forall i :: 0 <= i < |ys| ==> MinOf(xs) <= ys[i]
    ensures MinOf(xs + ys) == MinOf(xs)
    decreases |ys|
  {
    if ys == [] {
      assert xs + ys == xs;
    } else {
      var n := |ys| - 1;
      assert (xs + ys)[..|xs + ys| - 1] == xs + ys[..n];
      MinOfConcat(xs, ys[..n]);
    }
  }

  /** Keeping the first time is right when nothing added is earlier. */
  lemma MergeTwice(xs: seq<int>, ys: seq<int>)
    requires xs != [] ==> forall i :: 0 <= i < |ys| ==> MinOf(xs) <= ys[i]
    ensures Merge(Merge(None, xs), ys) == Merge(None, xs + ys)
  {
    if xs == [] {
      assert xs + ys == ys;
    } else if ys == [] {
      assert xs + ys == xs;
    } else {
      MaxOfConcat(xs, ys);
      MinOfConcat(xs, ys);
    }
  }

  lemma {:induction false} NewTimesLater(log: seq<Entry>, n: nat, cursor: Option<int>, ip: Ip, i: nat)
    requires n <= |log| && i < |NewTimes(log, n, cursor, ip)|
    ensures Later(NewTimes(log, n, cursor, ip)[i], cursor)
    decreases n
  {
    if i < |NewTimes(log, n - 1, cursor, ip)| {
      NewTimesLater(log, n - 1, cursor, ip, i);
    }
  }

  lemma {:induction false} MinNotLater(log: seq<Entry>, n: nat, m: nat, ip: Ip)
    requires n <= m <= |log| && NewTimes(log, n, None, ip) != []
    ensures !Later(MinOf(NewTimes(log, n, None, ip)), Latest(log, m, None))
    decreases n
  {
    var ts := NewTimes(log, n, None, ip);
    if log[n - 1].ip == ip && log[n - 1].time.Some? {
      LatestBounds(log, m, m, n - 1);
      assert ts[..|ts| - 1] == NewTimes(log, n - 1, None, ip);
    } else {
      MinNotLater(log, n - 1, m, ip);
    }
  }

  /** One poll of on-time entries keeps the row exact. */
  lemma PollKeepsExact(log: seq<Entry>, a: nat, n: nat, ip: Ip)
    requires a <= n <= |log| && LateCount(log, a, n, ip) == 0
    ensures Merge(Batch(log, a, ip), NewTimes(log, n, Latest(log, a, None), ip)) == Batch(log, n, ip)
  {
    var xs, ys := NewTimes(log, a, None, ip), NewTimes(log, n, Latest(log, a, None), ip);
    PollAdds(log, a, n, ip);
    if xs != [] {
      MinNotLater(log, a, a, ip);
      forall i | 0 <= i < |ys| ensures MinOf(xs) <= ys[i] {
        NewTimesLater(log, n, Latest(log, a, None), ip, i);
      }
    }
    MergeTwice(xs, ys);
  }

  lemma {:induction false} MinMaxOf(ts: seq<int>)
    requires ts != []
    ensures MinOf(ts) in ts && MaxOf(ts) in ts && forall i :: 0 <= i < |ts| ==> MinOf(ts) <= ts[i] <= MaxOf(ts)
    decreases |ts|
  {
    if |ts| > 1 {
      MinMaxOf(ts[..|ts| - 1]);
    }
  }

  /** The batch row of an address: the number of its timed entries, the earliest time and the latest. */
  lemma BatchMeaning(log: seq<Entry>, n: nat, ip: Ip)
    requires n <= |log|
    ensures var ts := NewTimes(log, n, None, ip);
            match Batch(log, n, ip)
            case None => ts == []
            case Some(r) => r.count == |ts| > 0 && r.first in ts && r.last in ts
                            && forall i :: 0 <= i < |ts| ==> r.first <= ts[i] <= r.last
  {
    if NewTimes(log, n, None, ip) != [] {
      MinMaxOf(NewTimes(log, n, None, ip));
    }
  }

  /* The theorem */

  /** How many entries of `ip` the first `n` polls met for the first time with a time not later than the
      latest they had already seen. */
  ghost function Lost(log: seq<Entry>, marks: seq<nat>, n: nat, ip: Ip): (r: nat)
    requires Growing(log, marks) && n <= |marks|
    decreases n
  {
    if n == 0 then 0 else Lost(log, marks, n - 1, ip) + LateCount(log, Seen(marks, n - 1), marks[n - 1], ip)
  }

  function CountOf(row: Option<Rollup>): nat {
    if row.Some? then row.value.count else 0
  }

  /** Every timed entry is counted exactly once or lost for good. */
  lemma {:induction false} CountsConserved(log: seq<Entry>, marks: seq<nat>, n: nat, ip: Ip)
    requires Growing(log, marks) && n <= |marks|
    ensures CountOf(RowAfter(log, marks, n, ip)) + Lost(log, marks, n, ip)
         == |NewTimes(log, Seen(marks, n), None, ip)|
    decreases n
  {
    if n > 0 {
      CountsConserved(log, marks, n - 1, ip);
      CursorIsLatest(log, marks, n - 1);
      PollAdds(log, Seen(marks, n - 1), marks[n - 1], ip);
    }
  }

  lemma {:induction false} OnTimeExact(log: seq<Entry>, marks: seq<nat>, n: nat, ip: Ip)
    requires Growing(log, marks) && n <= |marks| && Lost(log, marks, n, ip) == 0
    ensures RowAfter(log, marks, n, ip) == Batch(log, Seen(marks, n), ip)
    decreases n
  {
    if n > 0 {
      OnTimeExact(log, marks, n - 1, ip);
      CursorIsLatest(log, marks, n - 1);
      PollKeepsExact(log, Seen(marks, n - 1), marks[n - 1], ip);
    }
  }

  /** After any polls of a growing log, the row of an address has the exact count, first time and last time
      of that log exactly when none of its entries arrived late. */
  lemma RollupExactlyWhen(log: seq<Entry>, marks: seq<nat>, n: nat, ip: Ip)
    requires Growing(log, marks) && n <= |marks|
    ensures RowAfter(log, marks, n, ip) == Batch(log, Seen(marks, n), ip) <==> Lost(log, marks, n, ip) == 0
  {
    CountsConserved(log, marks, n, ip);
    if Lost(log, marks, n, ip) == 0 {
      OnTimeExact(log, marks, n, ip);
    }
  }

  /** A second entry with the time of the last one seen is never counted. */
  lemma SameTimeIsLost(e: Entry) returns (log: seq<Entry>, marks: seq<nat>)
    requires e.time.Some?
    ensures Growing(log, marks) && log == [e, e] && marks == [1, 2]
    ensures RowAfter(log, marks, |marks|, e.ip) != Batch(log, |log|, e.ip)
  {
    log, marks := [e, e], [1, 2];
    var n := |marks|;
    LatestBounds(log, n - 1, n, 0);
    assert LateAt(log, n - 1, n - 1, e.ip);
    assert LateCount(log, n - 1, n, e.ip) >= 1;
    assert Lost(log, marks, n, e.ip) >= LateCount(log, Seen(marks, n - 1), marks[n - 1], e.ip);
    RollupExactlyWhen(log, marks, n, e.ip);
  }

  /* Whole runs of the ingest method */

  function SumOf(counts: seq<nat>): nat {
    if counts == [] then 0 else SumOf(counts[..|counts| - 1]) + counts[|counts| - 1]
  }

  lemma PollIsNext(log: seq<Entry>, marks: seq<nat>, n: nat, before: map<Ip, Rollup>, after: map<Ip, Rollup>)
    requires Growing(log, marks) && n < |marks|
    requires forall ip :: RowOf(before, ip) == RowAfter(log, marks, n, ip)
    requires Polled(before, after, log[..marks[n]], CursorAfter(log, marks, n))
    ensures forall ip :: RowOf(after, ip) == RowAfter(log, marks, n + 1, ip)
  {
    var seen, cursor := log[..marks[n]], CursorAfter(log, marks, n);
    forall ip ensures RowOf(after, ip) == RowAfter(log, marks, n + 1, ip) {
      assert RowOf(after, ip) == Merge(RowOf(before, ip), NewTimes(seen, |seen|, cursor, ip));
      PollOfPrefix(log, marks[n], marks[n], cursor, ip);
    }
  }

  /** A new stream that polls a growing log any number of times has, at every address, the row of the
      theorems above, their cursor, and counts that sum to the totals the polls returned; and a row is the
      one computed from the whole log at once exactly when no entry of its address arrived late. */
  method PollRepeatedly(stream: Stream, log: seq<Entry>, marks: seq<nat>) returns (counts: seq<nat>)
    requires Growing(log, marks) && stream.rows == map[] && stream.cursor == None
    modifies stream
    ensures |counts| == |marks| && Total(stream.rows) == SumOf(counts)
    ensures forall ip :: RowOf(stream.rows, ip) == RowAfter(log, marks, |marks|, ip)
    ensures stream.cursor == CursorAfter(log, marks, |marks|)
    ensures forall ip :: RowOf(stream.rows, ip) == Batch(log, Seen(marks, |marks|), ip)
                    <==> Lost(log, marks, |marks|, ip) == 0
  {
    counts := [];
    for n := 0 to |marks|
      invariant |counts| == n && Total(stream.rows) == SumOf(counts)
      invariant forall ip :: RowOf(stream.rows, ip) == RowAfter(log, marks, n, ip)
      invariant stream.cursor == CursorAfter(log, marks, n)
    {
      ghost var before := stream.rows;
      PollOfPrefix(log, marks[n], marks[n], stream.cursor, "");
      var count := stream.Ingest(log[..marks[n]]);
      PollIsNext(log, marks, n, before, stream.rows);
      assert (counts + [count])[..n] == counts;
      counts := counts + [count];
    }
    forall ip ensures RowOf(stream.rows, ip) == Batch(log, Seen(marks, |marks|), ip)
                 <==> Lost(log, marks, |marks|, ip) == 0 {
      RollupExactlyWhen(log, marks, |marks|, ip);
    }
  }
}

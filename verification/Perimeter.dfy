/** The perimeter rollup: each poll of a device's log adds what is later than the cursor to one row per
    source address. */
module Perimeter {
  import opened Strings

  type Ip = string

  /** A log entry; entries without a time are ignored. */
  datatype Entry = Entry(time: Option<int>, ip: Ip)

  /** An entry that will be counted. */
  datatype Hit = Hit(time: int, ip: Ip)

  datatype Rollup = Rollup(count: nat, first: int, last: int)

  function Least(a: int, b: int): int {
    if a <= b then a else b
  }

  function Greatest(a: int, b: int): int {
    if a >= b then a else b
  }

  function MinOf(ts: seq<int>): int
    requires ts != []
  {
    if |ts| == 1 then ts[0] else Least(MinOf(ts[..|ts| - 1]), ts[|ts| - 1])
  }

  function MaxOf(ts: seq<int>): int
    requires ts != []
  {
    if |ts| == 1 then ts[0] else Greatest(MaxOf(ts[..|ts| - 1]), ts[|ts| - 1])
  }

  predicate Later(t: int, cursor: Option<int>) {
    cursor == None || t > cursor.value
  }

  /** The times at which `ip` appears among the first `n` entries, later than the cursor. */
  function NewTimes(log: seq<Entry>, n: nat, cursor: Option<int>, ip: Ip): (r: seq<int>)
    requires n <= |log|
  {
    if n == 0 then []
    else if log[n - 1].ip == ip && log[n - 1].time.Some? && Later(log[n - 1].time.value, cursor)
    then NewTimes(log, n - 1, cursor, ip) + [log[n - 1].time.value]
    else NewTimes(log, n - 1, cursor, ip)
  }

  /** The cursor after the first `n` entries were seen. */
  function Latest(log: seq<Entry>, n: nat, cursor: Option<int>): (r: Option<int>)
    requires n <= |log|
  {
    if n == 0 then cursor
    else
      var before := Latest(log, n - 1, cursor);
      if log[n - 1].time.Some? && Later(log[n - 1].time.value, before) then log[n - 1].time else before
  }

  /** How many of the first `n` entries are later than the cursor. */
  function NewCount(log: seq<Entry>, n: nat, cursor: Option<int>): (r: nat)
    requires n <= |log|
    ensures r <= n
  {
    if n == 0 then 0
    else NewCount(log, n - 1, cursor)
         + if log[n - 1].time.Some? && Later(log[n - 1].time.value, cursor) then 1 else 0
  }

  /** The row after an upsert of a group of times: an existing row keeps its first time. */
  function Merge(row: Option<Rollup>, ts: seq<int>): Option<Rollup> {
    if ts == [] then row
    else match row
         case None => Some(Rollup(|ts|, MinOf(ts), MaxOf(ts)))
         case Some(r) => Some(Rollup(r.count + |ts|, r.first, Greatest(r.last, MaxOf(ts))))
  }

  function RowOf(rows: map<Ip, Rollup>, ip: Ip): Option<Rollup> {
    if ip in rows then Some(rows[ip]) else None
  }

  /* The sum of a rollup's counts */

  ghost function Total(rows: map<Ip, Rollup>): (r: nat)
    decreases |rows|
  {
    if rows == map[] then 0
    else
      var ip :| ip in rows;
      assert |rows - {ip}| < |rows| by {
        assert (rows - {ip}).Keys == rows.Keys - {ip};
      }
      rows[ip].count + Total(rows - {ip})
  }

  lemma {:induction false} TotalAny(rows: map<Ip, Rollup>, ip: Ip)
    requires ip in rows
    ensures Total(rows) == rows[ip].count + Total(rows - {ip})
    decreases |rows|
  {
    var first :| first in rows && Total(rows) == rows[first].count + Total(rows - {first});
    if first != ip {
      assert |rows - {first}| < |rows| && |rows - {ip}| < |rows| by {
        assert (rows - {first}).Keys == rows.Keys - {first} && (rows - {ip}).Keys == rows.Keys - {ip};
      }
      TotalAny(rows - {first}, ip);
      TotalAny(rows - {ip}, first);
      assert rows - {first} - {ip} == rows - {ip} - {first};
    }
  }

  lemma TotalSet(rows: map<Ip, Rollup>, ip: Ip, r: Rollup)
    ensures Total(rows[ip := r]) == Total(rows) + r.count - if ip in rows then rows[ip].count else 0
  {
    TotalAny(rows[ip := r], ip);
    if ip in rows {
      TotalAny(rows, ip);
      assert rows[ip := r] - {ip} == rows - {ip};
    } else {
      assert rows[ip := r] - {ip} == rows;
    }
  }

  /* One poll */

  function TimesIn(hits: seq<Hit>, n: nat, ip: Ip): (r: seq<int>)
    requires n <= |hits|
  {
    if n == 0 then []
    else if hits[n - 1].ip == ip then TimesIn(hits, n - 1, ip) + [hits[n - 1].time]
    else TimesIn(hits, n - 1, ip)
  }

  function Newest(hits: seq<Hit>, n: nat): (r: int)
    requires 0 < n <= |hits|
  {
    if n == 1 then hits[0].time else Greatest(Newest(hits, n - 1), hits[n - 1].time)
  }

  lemma {:induction false} TimesInLonger(hits: seq<Hit>, h: Hit, n: nat, ip: Ip)
    requires n <= |hits|
    ensures TimesIn(hits + [h], n, ip) == TimesIn(hits, n, ip)
    decreases n
  {
    if n > 0 {
      TimesInLonger(hits, h, n - 1, ip);
    }
  }

  lemma {:induction false} NewestLonger(hits: seq<Hit>, h: Hit, n: nat)
    requires 0 < n <= |hits|
    ensures Newest(hits + [h], n) == Newest(hits, n)
    decreases n
  {
    if n > 1 {
      NewestLonger(hits, h, n - 1);
    }
  }

  /** The hits are the first `n` entries later than the cursor. */
  ghost predicate Selected(log: seq<Entry>, n: nat, cursor: Option<int>, hits: seq<Hit>)
    requires n <= |log|
  {
    && |hits| == NewCount(log, n, cursor)
    && Latest(log, n, cursor) == (if hits == [] then cursor else Some(Newest(hits, |hits|)))
    && (hits != [] ==> Later(Newest(hits, |hits|), cursor))
    && forall ip :: TimesIn(hits, |hits|, ip) == NewTimes(log, n, cursor, ip)
  }

  lemma SelectStep(log: seq<Entry>, n: nat, cursor: Option<int>, hits: seq<Hit>)
    requires n < |log| && Selected(log, n, cursor, hits)
    requires log[n].time.Some? && Later(log[n].time.value, cursor)
    ensures Selected(log, n + 1, cursor, hits + [Hit(log[n].time.value, log[n].ip)])
  {
    var h := Hit(log[n].time.value, log[n].ip);
    var more := hits + [h];
    if hits != [] {
      NewestLonger(hits, h, |hits|);
    }
    forall ip ensures TimesIn(more, |more|, ip) == NewTimes(log, n + 1, cursor, ip) {
      TimesInLonger(hits, h, |hits|, ip);
    }
  }

  lemma SelectSkip(log: seq<Entry>, n: nat, cursor: Option<int>, hits: seq<Hit>)
    requires n < |log| && Selected(log, n, cursor, hits)
    requires !(log[n].time.Some? && Later(log[n].time.value, cursor))
    ensures Selected(log, n + 1, cursor, hits)
  {
    forall ip ensures TimesIn(hits, |hits|, ip) == NewTimes(log, n + 1, cursor, ip) {
    }
  }

  method SelectNew(log: seq<Entry>, cursor: Option<int>) returns (hits: seq<Hit>)
    ensures Selected(log, |log|, cursor, hits)
  {
    hits := [];
    for n := 0 to |log|
      invariant Selected(log, n, cursor, hits)
    {
      if log[n].time.Some? && (cursor == None || log[n].time.value > cursor.value) {
        SelectStep(log, n, cursor, hits);
        hits := hits + [Hit(log[n].time.value, log[n].ip)];
      } else {
        SelectSkip(log, n, cursor, hits);
      }
    }
  }

  /** `order` lists the keys of `groups` in the order they were first met, once each. */
  ghost predicate Listed(order: seq<Ip>, groups: map<Ip, seq<int>>) {
    && (forall i :: 0 <= i < |order| ==> order[i] in groups)
    && (forall ip :: ip in groups ==> ip in order)
    && (forall i, k :: 0 <= i < k < |order| ==> order[i] != order[k])
  }

  ghost predicate Grouped(hits: seq<Hit>, n: nat, groups: map<Ip, seq<int>>)
    requires n <= |hits|
  {
    && (forall ip :: ip in groups ==> groups[ip] == TimesIn(hits, n, ip) && groups[ip] != [])
    && (forall ip :: ip !in groups ==> TimesIn(hits, n, ip) == [])
  }

  function GroupTotal(order: seq<Ip>, groups: map<Ip, seq<int>>, n: nat): (r: nat)
    requires n <= |order|
  {
    if n == 0 then 0
    else GroupTotal(order, groups, n - 1) + if order[n - 1] in groups then |groups[order[n - 1]]| else 0
  }

  lemma {:induction false} GroupTotalOther(order: seq<Ip>, groups: map<Ip, seq<int>>, n: nat, more: seq<Ip>, ip: Ip, ts: seq<int>)
    requires n <= |order| && forall i :: 0 <= i < n ==> order[i] != ip
    ensures GroupTotal(order + more, groups[ip := ts], n) == GroupTotal(order, groups, n)
    decreases n
  {
    if n > 0 {
      GroupTotalOther(order, groups, n - 1, more, ip, ts);
      assert (order + more)[n - 1] == order[n - 1];
    }
  }

  lemma {:induction false} GroupTotalSet(order: seq<Ip>, groups: map<Ip, seq<int>>, n: nat, j: nat, ts: seq<int>)
    requires j < n <= |order| && Listed(order, groups)
    ensures GroupTotal(order, groups[order[j] := ts], n) == GroupTotal(order, groups, n) + |ts| - |groups[order[j]]|
    decreases n
  {
    if n == j + 1 {
      GroupTotalOther(order, groups, j, [], order[j], ts);
      assert order + [] == order;
    } else {
      GroupTotalSet(order, groups, n - 1, j, ts);
    }
  }

  function AddTo(groups: map<Ip, seq<int>>, h: Hit): map<Ip, seq<int>> {
    groups[h.ip := (if h.ip in groups then groups[h.ip] else []) + [h.time]]
  }

  lemma GroupStep(hits: seq<Hit>, n: nat, groups: map<Ip, seq<int>>)
    requires n < |hits| && Grouped(hits, n, groups)
    ensures Grouped(hits, n + 1, AddTo(groups, hits[n]))
  {
    var after := AddTo(groups, hits[n]);
    forall ip | ip in after ensures after[ip] == TimesIn(hits, n + 1, ip) && after[ip] != [] {
    }
    forall ip | ip !in after ensures TimesIn(hits, n + 1, ip) == [] {
    }
  }

  function ListIn(order: seq<Ip>, groups: map<Ip, seq<int>>, ip: Ip): seq<Ip> {
    if ip in groups then order else order + [ip]
  }

  lemma GroupTotalStep(order: seq<Ip>, groups: map<Ip, seq<int>>, h: Hit)
    requires Listed(order, groups)
    ensures var listed := ListIn(order, groups, h.ip);
            && Listed(listed, AddTo(groups, h))
            && GroupTotal(listed, AddTo(groups, h), |listed|) == GroupTotal(order, groups, |order|) + 1
  {
    var ts := (if h.ip in groups then groups[h.ip] else []) + [h.time];
    if h.ip in groups {
      var j :| 0 <= j < |order| && order[j] == h.ip;
      GroupTotalSet(order, groups, |order|, j, ts);
    } else {
      GroupTotalOther(order, groups, |order|, [h.ip], h.ip, ts);
    }
  }

  method GroupByIp(hits: seq<Hit>) returns (order: seq<Ip>, groups: map<Ip, seq<int>>)
    ensures Listed(order, groups) && Grouped(hits, |hits|, groups)
    ensures GroupTotal(order, groups, |order|) == |hits|
  {
    order, groups := [], map[];
    for n := 0 to |hits|
      invariant Listed(order, groups) && Grouped(hits, n, groups)
      invariant GroupTotal(order, groups, |order|) == n
    {
      var h := hits[n];
      GroupStep(hits, n, groups);
      GroupTotalStep(order, groups, h);
      order, groups := ListIn(order, groups, h.ip), AddTo(groups, h);
    }
  }

  /** What a poll of `log` does to the rows and the cursor. */
  ghost predicate Polled(before: map<Ip, Rollup>, after: map<Ip, Rollup>, log: seq<Entry>, cursor: Option<int>) {
    forall ip :: RowOf(after, ip) == Merge(RowOf(before, ip), NewTimes(log, |log|, cursor, ip))
  }

  /** The groups listed before `n` are merged and the others are not. */
  ghost predicate Merged(before: map<Ip, Rollup>, after: map<Ip, Rollup>, order: seq<Ip>,
                         groups: map<Ip, seq<int>>, n: nat)
    requires n <= |order|
  {
    && (forall i :: 0 <= i < n && order[i] in groups ==>
          RowOf(after, order[i]) == Merge(RowOf(before, order[i]), groups[order[i]]))
    && (forall i :: n <= i < |order| ==> RowOf(after, order[i]) == RowOf(before, order[i]))
    && (forall ip :: ip !in order ==> RowOf(after, ip) == RowOf(before, ip))
  }

  lemma MergeStep(before: map<Ip, Rollup>, rows: map<Ip, Rollup>, order: seq<Ip>, groups: map<Ip, seq<int>>, n: nat,
                  r: Rollup)
    requires n < |order| && Listed(order, groups) && Merged(before, rows, order, groups, n)
    requires Some(r) == Merge(RowOf(rows, order[n]), groups[order[n]])
    ensures Merged(before, rows[order[n] := r], order, groups, n + 1)
  {
    var after := rows[order[n] := r];
    forall i | n + 1 <= i < |order| ensures RowOf(after, order[i]) == RowOf(before, order[i]) {
      assert order[n] != order[i];
    }
    forall i | 0 <= i < n ensures order[i] != order[n] {
    }
  }

  lemma MergedIsPolled(before: map<Ip, Rollup>, after: map<Ip, Rollup>, log: seq<Entry>, cursor: Option<int>,
                       hits: seq<Hit>, order: seq<Ip>, groups: map<Ip, seq<int>>)
    requires Selected(log, |log|, cursor, hits) && Listed(order, groups) && Grouped(hits, |hits|, groups)
    requires Merged(before, after, order, groups, |order|)
    ensures Polled(before, after, log, cursor)
  {
    forall ip ensures RowOf(after, ip) == Merge(RowOf(before, ip), NewTimes(log, |log|, cursor, ip)) {
      assert TimesIn(hits, |hits|, ip) == NewTimes(log, |log|, cursor, ip);
      if ip in groups {
        var i :| 0 <= i < |order| && order[i] == ip;
      }
    }
  }

  /** The rollup rows and the cursor of one device and kind. */
  class Stream {
    var rows: map<Ip, Rollup>
    var cursor: Option<int>

    constructor ()
      ensures rows == map[] && cursor == None
    {
      rows, cursor := map[], None;
    }

    /** Inserts the row of a group, or adds the group to the existing row. */
    method Upsert(ip: Ip, ts: seq<int>) returns (ghost r: Rollup)
      requires ts != []
      modifies this`rows
      ensures Some(r) == Merge(RowOf(old(rows), ip), ts) && rows == old(rows)[ip := r]
      ensures Total(rows) == Total(old(rows)) + |ts|
    {
      var row;
      if ip in rows {
        row := Rollup(rows[ip].count + |ts|, rows[ip].first, Greatest(rows[ip].last, MaxOf(ts)));
      } else {
        row := Rollup(|ts|, MinOf(ts), MaxOf(ts));
      }
      TotalSet(rows, ip, row);
      rows := rows[ip := row];
      r := row;
    }

    /** One poll: adds the entries later than the cursor and moves the cursor to the latest of them. The
        number returned is what the counts grew by. */
    method Ingest(log: seq<Entry>) returns (n: nat)
      modifies this
      ensures Polled(old(rows), rows, log, old(cursor))
      ensures cursor == Latest(log, |log|, old(cursor))
      ensures n == NewCount(log, |log|, old(cursor)) && Total(rows) == Total(old(rows)) + n
    {
      var hits := SelectNew(log, cursor);
      if hits == [] {
        assert forall ip :: NewTimes(log, |log|, cursor, ip) == TimesIn(hits, |hits|, ip);
        return 0;
      }
      var order, groups := GroupByIp(hits);
      for k := 0 to |order|
        invariant cursor == old(cursor) && Merged(old(rows), rows, order, groups, k)
        invariant Total(rows) == Total(old(rows)) + GroupTotal(order, groups, k)
      {
        ghost var before := rows;
        ghost var r := Upsert(order[k], groups[order[k]]);
        MergeStep(old(rows), before, order, groups, k, r);
      }
      MergedIsPolled(old(rows), rows, log, cursor, hits, order, groups);
      cursor := Some(Newest(hits, |hits|));
      n := |hits|;
    }
  }

  /** Both signals of a device; a source that cannot be read leaves its stream alone and does not keep the
      other from being read. */
  method IngestBoth(blocks: Stream, logins: Stream, blockLog: Option<seq<Entry>>, loginLog: Option<seq<Entry>>)
    returns (total: nat)
    requires blocks != logins
    modifies blocks, logins
    ensures blockLog == None ==> blocks.rows == old(blocks.rows) && blocks.cursor == old(blocks.cursor)
    ensures loginLog == None ==> logins.rows == old(logins.rows) && logins.cursor == old(logins.cursor)
    ensures blockLog.Some? ==> Polled(old(blocks.rows), blocks.rows, blockLog.value, old(blocks.cursor))
    ensures loginLog.Some? ==> Polled(old(logins.rows), logins.rows, loginLog.value, old(logins.cursor))
    ensures Total(blocks.rows) + Total(logins.rows) == Total(old(blocks.rows)) + Total(old(logins.rows)) + total
  {
    total := 0;
    if blockLog.Some? {
      total := blocks.Ingest(blockLog.value);
    }
    if loginLog.Some? {
      var n := logins.Ingest(loginLog.value);
      total := total + n;
    }
  }
}

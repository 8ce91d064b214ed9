/** Keyset pagination of events, newest first, while rows come and go between requests. */
module EventPaging {
  import opened Strings

  const MAX_EVENTS: nat := 1000

  /** The primary key of an event. */
  datatype Key = Key(time: int, device: nat, source: string, event: string)

  datatype Row = Row(key: Key, tenant: nat)

  /** Key `a` is less than key `b`, comparing time, device, source and event key in that order. */
  predicate Below(a: Key, b: Key) {
    a.time < b.time
    || (a.time == b.time && (a.device < b.device
    || (a.device == b.device && (Less(a.source, b.source)
    || (a.source == b.source && Less(a.event, b.event))))))
  }

  lemma BelowIrreflexive(a: Key)
    ensures !Below(a, a)
  {
    LessTotal(a.source, a.source);
    LessTotal(a.event, a.event);
  }

  lemma BelowTransitive(a: Key, b: Key, c: Key)
    requires Below(a, b) && Below(b, c)
    ensures Below(a, c)
  {
    if Less(a.source, b.source) && Less(b.source, c.source) {
      LessTransitive(a.source, b.source, c.source);
    }
    if Less(a.event, b.event) && Less(b.event, c.event) {
      LessTransitive(a.event, b.event, c.event);
    }
  }

  /** Keys are totally ordered, by time first. */
  lemma BelowTotal(a: Key, b: Key)
    ensures Below(a, b) || Below(b, a) || a == b
    ensures a.time < b.time ==> Below(a, b)
    ensures a.time == b.time && a.device < b.device ==> Below(a, b)
    ensures a.time == b.time && a.device == b.device && Less(a.source, b.source) ==> Below(a, b)
  {
    LessTotal(a.source, b.source);
    LessTotal(a.event, b.event);
  }

  /** Rows from the greatest key down; keys are unique. */
  ghost predicate Descending(rows: seq<Row>) {
    forall i, k :: 0 <= i < k < |rows| ==> Below(rows[k].key, rows[i].key)
  }

  /** The optional conditions of a request. */
  datatype Filter = Filter(tenant: nat, source: Option<string>, device: Option<nat>, from: Option<int>, to: Option<int>)

  predicate Matches(f: Filter, r: Row) {
    && r.tenant == f.tenant
    && (f.source.Some? ==> r.key.source == f.source.value)
    && (f.device.Some? ==> r.key.device == f.device.value)
    && (f.from.Some? ==> r.key.time >= f.from.value)
    && (f.to.Some? ==> r.key.time < f.to.value)
  }

  predicate Past(after: Option<Key>, r: Row) {
    after == None || Below(r.key, after.value)
  }

  /** The rows among the first `m` that match and lie below the cursor. */
  function Matching(table: seq<Row>, m: nat, f: Filter, after: Option<Key>): (r: seq<Row>)
    requires m <= |table|
    ensures |r| <= m
  {
    if m == 0 then []
    else if Matches(f, table[m - 1]) && Past(after, table[m - 1])
    then Matching(table, m - 1, f, after) + [table[m - 1]]
    else Matching(table, m - 1, f, after)
  }

  function Hits(table: seq<Row>, f: Filter, after: Option<Key>): seq<Row> {
    Matching(table, |table|, f, after)
  }

  function FirstOf(rows: seq<Row>, n: nat): (r: seq<Row>)
    ensures |r| == if n <= |rows| then n else |rows|
  {
    if n <= |rows| then rows[..n] else rows
  }

  /** A page: the first `n` matches, and a cursor when the page is full. */
  function Page(table: seq<Row>, f: Filter, after: Option<Key>, n: nat): seq<Row> {
    FirstOf(Hits(table, f, after), n)
  }

  function CursorOf(page: seq<Row>, n: nat): Option<Key> {
    if |page| == n && n > 0 then Some(page[n - 1].key) else None
  }

  datatype Listed = Listed(items: seq<Row>, next: Option<Key>) | Raised

  /** The query, scanning the table in key order. A negative limit is refused by the database; with a
      limit of zero the page is full and has no last row to take the cursor from. */
  method ListPage(table: seq<Row>, f: Filter, after: Option<Key>, limit: int) returns (r: Listed)
    ensures var n := if limit <= MAX_EVENTS then limit else MAX_EVENTS;
            r == if n <= 0 then Raised else Listed(Page(table, f, after, n), CursorOf(Page(table, f, after, n), n))
  {
    var n := if limit <= MAX_EVENTS then limit else MAX_EVENTS;
    if n < 0 {
      return Raised;
    }
    var items: seq<Row> := [];
    var m := 0;
    while m < |table| && |items| < n
      invariant m <= |table| && |items| <= n
      invariant items == Matching(table, m, f, after)
    {
      if Matches(f, table[m]) && Past(after, table[m]) {
        items := items + [table[m]];
      }
      m := m + 1;
    }
    MatchingPrefix(table, m, |table|, f, after);
    if |items| < n {
      return Listed(items, None);
    }
    r := if items == [] then Raised else Listed(items, Some(items[|items| - 1].key));
  }

  /* Matches */

  lemma {:induction false} MatchingPrefix(table: seq<Row>, m: nat, n: nat, f: Filter, after: Option<Key>)
    requires m <= n <= |table|
    ensures |Matching(table, m, f, after)| <= |Matching(table, n, f, after)|
    ensures Matching(table, n, f, after)[..|Matching(table, m, f, after)|] == Matching(table, m, f, after)
    decreases n
  {
    if m < n {
      MatchingPrefix(table, m, n - 1, f, after);
    }
  }

  lemma {:induction false} MatchingSound(table: seq<Row>, m: nat, f: Filter, after: Option<Key>, i: nat) returns (k: nat)
    requires m <= |table| && i < |Matching(table, m, f, after)|
    ensures k < m && Matching(table, m, f, after)[i] == table[k] && Matches(f, table[k]) && Past(after, table[k])
    decreases m
  {
    if i < |Matching(table, m - 1, f, after)| {
      k := MatchingSound(table, m - 1, f, after, i);
    } else {
      k := m - 1;
    }
  }

  lemma {:induction false} MatchingComplete(table: seq<Row>, m: nat, f: Filter, after: Option<Key>, k: nat) returns (i: nat)
    requires k < m <= |table| && Matches(f, table[k]) && Past(after, table[k])
    ensures i < |Matching(table, m, f, after)| && Matching(table, m, f, after)[i] == table[k]
    decreases m
  {
    if k < m - 1 {
      i := MatchingComplete(table, m - 1, f, after, k);
    } else {
      i := |Matching(table, m - 1, f, after)|;
    }
  }

  lemma {:induction false} MatchingDescending(table: seq<Row>, m: nat, f: Filter, after: Option<Key>)
    requires m <= |table| && Descending(table)
    ensures Descending(Matching(table, m, f, after))
    decreases m
  {
    if m > 0 {
      MatchingDescending(table, m - 1, f, after);
      var front := Matching(table, m - 1, f, after);
      forall i | 0 <= i < |front| ensures Below(table[m - 1].key, front[i].key) {
        var k := MatchingSound(table, m - 1, f, after, i);
      }
    }
  }

  /** A row is among the hits exactly when it is in the table, of the tenant, from the source and device
      asked for, not before `from` and before `to`, and below the cursor. */
  lemma HitsExactly(table: seq<Row>, f: Filter, after: Option<Key>, r: Row)
    ensures r in Hits(table, f, after)
       <==> && r in table && r.tenant == f.tenant
            && (f.source == None || f.source == Some(r.key.source))
            && (f.device == None || f.device == Some(r.key.device))
            && (f.from == None || f.from.value <= r.key.time) && (f.to == None || r.key.time < f.to.value)
            && (after == None || Below(r.key, after.value))
  {
    var hits := Hits(table, f, after);
    if r in hits {
      var i :| 0 <= i < |hits| && hits[i] == r;
      var k := MatchingSound(table, |table|, f, after, i);
    }
    if r in table && Matches(f, r) && Past(after, r) {
      var k :| 0 <= k < |table| && table[k] == r;
      var i := MatchingComplete(table, |table|, f, after, k);
    }
  }

  /** The rows of one tenant among the first `m`. */
  function OfTenant(table: seq<Row>, m: nat, tenant: nat): (r: seq<Row>)
    requires m <= |table|
  {
    if m == 0 then []
    else if table[m - 1].tenant == tenant then OfTenant(table, m - 1, tenant) + [table[m - 1]]
    else OfTenant(table, m - 1, tenant)
  }

  lemma {:induction false} MatchingIsolated(table: seq<Row>, m: nat, f: Filter, after: Option<Key>)
    requires m <= |table|
    ensures Hits(OfTenant(table, m, f.tenant), f, after) == Matching(table, m, f, after)
    decreases m
  {
    if m > 0 {
      MatchingIsolated(table, m - 1, f, after);
      if table[m - 1].tenant == f.tenant {
        MatchingMore(OfTenant(table, m - 1, f.tenant), table[m - 1], f, after);
      }
    }
  }

  lemma {:induction false} MatchingOfPrefix(table: seq<Row>, r: Row, m: nat, f: Filter, after: Option<Key>)
    requires m <= |table|
    ensures Matching(table + [r], m, f, after) == Matching(table, m, f, after)
    decreases m
  {
    if m > 0 {
      MatchingOfPrefix(table, r, m - 1, f, after);
    }
  }

  lemma MatchingMore(table: seq<Row>, r: Row, f: Filter, after: Option<Key>)
    ensures Hits(table + [r], f, after)
         == Hits(table, f, after) + if Matches(f, r) && Past(after, r) then [r] else []
  {
    MatchingOfPrefix(table, r, |table|, f, after);
  }

  /** A tenant's pages depend on its own rows only: tables that agree on them give the same page, whatever
      the rows of other tenants. */
  lemma TenantIsolated(a: seq<Row>, b: seq<Row>, f: Filter, after: Option<Key>, n: nat)
    requires OfTenant(a, |a|, f.tenant) == OfTenant(b, |b|, f.tenant)
    ensures Page(a, f, after, n) == Page(b, f, after, n)
  {
    MatchingIsolated(a, |a|, f, after);
    MatchingIsolated(b, |b|, f, after);
  }

  /* A walk over tables that change between requests */

  /** What a walk returned so far, and where it stands. */
  datatype Walk = Walk(rows: seq<Row>, cursor: Option<Key>, over: bool)

  /** The walk after at most `k` requests, the `i`-th of which sees `tables[i]`. */
  function WalkAfter(tables: seq<seq<Row>>, f: Filter, n: nat, k: nat): Walk
    requires k <= |tables|
  {
    if k == 0 then Walk([], None, false)
    else Step(WalkAfter(tables, f, n, k - 1), tables[k - 1], f, n)
  }

  function Step(w: Walk, table: seq<Row>, f: Filter, n: nat): Walk {
    if w.over then w
    else
      var page := Page(table, f, w.cursor, n);
      Walk(w.rows + page, CursorOf(page, n), CursorOf(page, n) == None)
  }

  /** The cursor is the last key returned. */
  ghost predicate WalkInv(w: Walk) {
    && Descending(w.rows)
    && (!w.over ==> w.cursor == if w.rows == [] then None else Some(w.rows[|w.rows| - 1].key))
  }

  lemma PageBelow(table: seq<Row>, f: Filter, after: Option<Key>, n: nat)
    requires Descending(table)
    ensures var page := Page(table, f, after, n);
            Descending(page) && forall i :: 0 <= i < |page| ==> Past(after, page[i])
  {
    var all := Hits(table, f, after);
    MatchingDescending(table, |table|, f, after);
    forall i | 0 <= i < |all| ensures Past(after, all[i]) {
      var k := MatchingSound(table, |table|, f, after, i);
    }
  }

  lemma AppendDescending(rows: seq<Row>, page: seq<Row>)
    requires Descending(rows) && Descending(page)
    requires rows != [] ==> forall i :: 0 <= i < |page| ==> Below(page[i].key, rows[|rows| - 1].key)
    ensures Descending(rows + page)
  {
    var all := rows + page;
    forall i, k | 0 <= i < k < |all| ensures Below(all[k].key, all[i].key) {
      if i < |rows| <= k && i < |rows| - 1 {
        BelowTransitive(all[k].key, rows[|rows| - 1].key, all[i].key);
      }
    }
  }

  lemma StepInv(w: Walk, table: seq<Row>, f: Filter, n: nat)
    requires WalkInv(w) && Descending(table) && n > 0
    ensures WalkInv(Step(w, table, f, n))
  {
    if !w.over {
      PageBelow(table, f, w.cursor, n);
      AppendDescending(w.rows, Page(table, f, w.cursor, n));
    }
  }

  /** However the table changes between requests, the rows returned come in strictly descending order: no
      row comes twice. */
  lemma {:induction false} WalkDescends(tables: seq<seq<Row>>, f: Filter, n: nat, k: nat)
    requires k <= |tables| && n > 0 && forall i :: 0 <= i < |tables| ==> Descending(tables[i])
    ensures WalkInv(WalkAfter(tables, f, n, k))
    decreases k
  {
    if k > 0 {
      WalkDescends(tables, f, n, k - 1);
      StepInv(WalkAfter(tables, f, n, k - 1), tables[k - 1], f, n);
    }
  }

  /** What a walk has done about a matching row that was always there: returned it, unless it still lies
      ahead. */
  ghost predicate Accounted(w: Walk, r: Row) {
    r in w.rows <==> w.over || !Past(w.cursor, r)
  }

  /** A page returns the matching row if it is past the old cursor and not past the new one. */
  lemma PageAccounts(table: seq<Row>, f: Filter, after: Option<Key>, n: nat, r: Row)
    requires Descending(table) && n > 0 && r in table && Matches(f, r) && Past(after, r)
    ensures var page := Page(table, f, after, n); r in page <==> !(CursorOf(page, n).Some? && Past(CursorOf(page, n), r))
  {
    var all, page := Hits(table, f, after), Page(table, f, after, n);
    MatchingDescending(table, |table|, f, after);
    var k :| 0 <= k < |table| && table[k] == r;
    var i := MatchingComplete(table, |table|, f, after, k);
    if i < |page| {
      assert page[i] == r;
      if CursorOf(page, n).Some? {
        NotBelowLater(all, i, n - 1);
      }
    } else if r in page {
      var j :| 0 <= j < |page| && page[j] == r;
      SamePlace(all, i, j);
    }
  }

  lemma SamePlace(rows: seq<Row>, i: nat, j: nat)
    requires Descending(rows) && i < |rows| && j < |rows| && rows[i].key == rows[j].key
    ensures i == j
  {
    BelowIrreflexive(rows[i].key);
  }

  /** In a descending list an earlier row is not below a later one. */
  lemma NotBelowLater(rows: seq<Row>, i: nat, k: nat)
    requires Descending(rows) && i <= k < |rows|
    ensures !Below(rows[i].key, rows[k].key)
  {
    BelowIrreflexive(rows[i].key);
    if i < k && Below(rows[i].key, rows[k].key) {
      BelowTransitive(rows[i].key, rows[k].key, rows[i].key);
    }
  }

  lemma StepAccounts(w: Walk, table: seq<Row>, f: Filter, n: nat, r: Row)
    requires WalkInv(w) && Descending(table) && n > 0 && r in table && Matches(f, r) && Accounted(w, r)
    ensures Accounted(Step(w, table, f, n), r)
  {
    if !w.over {
      var page := Page(table, f, w.cursor, n);
      PageBelow(table, f, w.cursor, n);
      if Past(w.cursor, r) {
        PageAccounts(table, f, w.cursor, n, r);
      } else {
        ReturnedStays(w, page, n, r);
      }
    }
  }

  /** A row already returned is not past the next cursor either. */
  lemma ReturnedStays(w: Walk, page: seq<Row>, n: nat, r: Row)
    requires WalkInv(w) && !w.over && r in w.rows && !Past(w.cursor, r) && Descending(page)
    requires forall i :: 0 <= i < |page| ==> Past(w.cursor, page[i])
    ensures CursorOf(page, n).Some? ==> !Past(CursorOf(page, n), r)
  {
    if CursorOf(page, n).Some? && Below(r.key, page[n - 1].key) {
      BelowTransitive(r.key, page[n - 1].key, w.cursor.value);
    }
  }

  lemma {:induction false} WalkAccounts(tables: seq<seq<Row>>, f: Filter, n: nat, k: nat, r: Row)
    requires k <= |tables| && n > 0 && Matches(f, r)
    requires forall i :: 0 <= i < |tables| ==> Descending(tables[i])
    requires forall i :: 0 <= i < k ==> r in tables[i]
    ensures Accounted(WalkAfter(tables, f, n, k), r)
    decreases k
  {
    if k > 0 {
      WalkAccounts(tables, f, n, k - 1, r);
      WalkDescends(tables, f, n, k - 1);
      StepAccounts(WalkAfter(tables, f, n, k - 1), tables[k - 1], f, n, r);
    }
  }

  /** A matching row that was there for the whole of a finished walk was returned exactly once, however
      other rows came and went. */
  lemma WalkReturnsOnce(tables: seq<seq<Row>>, f: Filter, n: nat, k: nat, r: Row) returns (i: nat)
    requires k <= |tables| && n > 0 && Matches(f, r)
    requires forall i :: 0 <= i < |tables| ==> Descending(tables[i])
    requires forall i :: 0 <= i < k ==> r in tables[i]
    requires WalkAfter(tables, f, n, k).over
    ensures var rows := WalkAfter(tables, f, n, k).rows;
            i < |rows| && rows[i] == r && forall j :: 0 <= j < |rows| && rows[j] == r ==> j == i
  {
    WalkAccounts(tables, f, n, k, r);
    WalkDescends(tables, f, n, k);
    var rows := WalkAfter(tables, f, n, k).rows;
    i :| 0 <= i < |rows| && rows[i] == r;
    forall j | 0 <= j < |rows| && rows[j] == r ensures j == i {
      SamePlace(rows, i, j);
    }
  }

  /* A walk over a table that does not change */

  function LowerThan(rows: seq<Row>, c: Key, m: nat): (r: seq<Row>)
    requires m <= |rows|
  {
    if m == 0 then []
    else if Below(rows[m - 1].key, c) then LowerThan(rows, c, m - 1) + [rows[m - 1]]
    else LowerThan(rows, c, m - 1)
  }

  lemma {:induction false} LowerThanPrefix(rows: seq<Row>, more: seq<Row>, c: Key, m: nat)
    requires m <= |rows|
    ensures LowerThan(rows + more, c, m) == LowerThan(rows, c, m)
    decreases m
  {
    if m > 0 {
      LowerThanPrefix(rows, more, c, m - 1);
    }
  }

  /** Resuming from a cursor drops the matches that are not below it. */
  lemma {:induction false} MatchingResumes(table: seq<Row>, m: nat, f: Filter, c: Key)
    requires m <= |table|
    ensures var all := Matching(table, m, f, None); Matching(table, m, f, Some(c)) == LowerThan(all, c, |all|)
    decreases m
  {
    if m > 0 {
      MatchingResumes(table, m - 1, f, c);
      var front := Matching(table, m - 1, f, None);
      LowerThanPrefix(front, [table[m - 1]], c, |front|);
    }
  }

  /** Below the `i`-th key of a descending list lies exactly what follows it. */
  lemma {:induction false} LowerThanRest(rows: seq<Row>, i: nat, m: nat)
    requires Descending(rows) && i < |rows| && m <= |rows|
    ensures LowerThan(rows, rows[i].key, m) == if m <= i then [] else rows[i + 1..m]
    decreases m
  {
    if m > 0 {
      LowerThanRest(rows, i, m - 1);
      if m - 1 <= i {
        NotBelowLater(rows, m - 1, i);
      }
    }
  }

  /** The page after the first `i` matches. */
  lemma PageFrom(table: seq<Row>, f: Filter, i: nat, n: nat)
    requires Descending(table) && i <= |Hits(table, f, None)|
    ensures var all := Hits(table, f, None);
            var after := if i == 0 then None else Some(all[i - 1].key);
            Page(table, f, after, n) == FirstOf(all[i..], n)
  {
    var all := Hits(table, f, None);
    MatchingDescending(table, |table|, f, None);
    if i > 0 {
      MatchingResumes(table, |table|, f, all[i - 1].key);
      LowerThanRest(all, i - 1, |all|);
    }
  }

  /** After `k` full pages of an unchanging table the walk stands after the first `k * n` matches. */
  ghost predicate StandsAt(w: Walk, all: seq<Row>, i: nat)
    requires i <= |all|
  {
    !w.over && w.rows == all[..i] && w.cursor == if i == 0 then None else Some(all[i - 1].key)
  }

  lemma StaticStep(w: Walk, table: seq<Row>, f: Filter, n: nat, i: nat)
    requires Descending(table) && n > 0 && i <= |Hits(table, f, None)| && StandsAt(w, Hits(table, f, None), i)
    ensures var all := Hits(table, f, None);
            if i + n <= |all| then StandsAt(Step(w, table, f, n), all, i + n)
            else Step(w, table, f, n).over && Step(w, table, f, n).rows == all
  {
    var all := Hits(table, f, None);
    PageFrom(table, f, i, n);
    if i + n <= |all| {
      assert all[i..][..n] == all[i..i + n];
      assert all[..i] + all[i..i + n] == all[..i + n];
    } else {
      assert all[..i] + all[i..] == all;
    }
  }

  ghost predicate Unchanging(tables: seq<seq<Row>>, table: seq<Row>) {
    forall i :: 0 <= i < |tables| ==> tables[i] == table
  }

  lemma {:induction false} StaticWalk(tables: seq<seq<Row>>, table: seq<Row>, f: Filter, n: nat, k: nat)
    requires k <= |tables| && Unchanging(tables, table) && Descending(table) && n > 0
    requires k * n <= |Hits(table, f, None)|
    ensures StandsAt(WalkAfter(tables, f, n, k), Hits(table, f, None), k * n)
    decreases k
  {
    if k > 0 {
      Distributes(k - 1, n);
      StaticWalk(tables, table, f, n, k - 1);
      StaticStep(WalkAfter(tables, f, n, k - 1), table, f, n, (k - 1) * n);
    }
  }

  lemma Distributes(k: nat, n: nat)
    ensures (k + 1) * n == k * n + n
  {
  }

  lemma DivisionBounds(m: nat, n: nat)
    requires n > 0
    ensures m / n * n <= m < m / n * n + n
  {
    assert m == m / n * n + m % n;
  }

  /** On an unchanging table with `N` matches the pages concatenate to exactly the matches in descending
      order, and the walk ends with request number `N / n + 1` and not before. */
  lemma StaticWalkExact(tables: seq<seq<Row>>, table: seq<Row>, f: Filter, n: nat, k: nat)
    requires Unchanging(tables, table) && Descending(table) && n > 0
    requires k == |Hits(table, f, None)| / n + 1 && k <= |tables|
    ensures WalkAfter(tables, f, n, k).over && WalkAfter(tables, f, n, k).rows == Hits(table, f, None)
    ensures Descending(Hits(table, f, None))
    ensures forall i :: 0 <= i < k ==> !WalkAfter(tables, f, n, i).over
  {
    var all := Hits(table, f, None);
    MatchingDescending(table, |table|, f, None);
    DivisionBounds(|all|, n);
    forall i | 0 <= i < k ensures !WalkAfter(tables, f, n, i).over {
      ProductGrows(i, k - 1, n);
      StaticWalk(tables, table, f, n, i);
    }
    StaticWalk(tables, table, f, n, k - 1);
    StaticStep(WalkAfter(tables, f, n, k - 1), table, f, n, (k - 1) * n);
  }

  lemma {:induction false} ProductGrows(i: nat, k: nat, n: nat)
    requires i <= k
    ensures i * n <= k * n
    decreases k
  {
    if i < k {
      Distributes(k - 1, n);
      ProductGrows(i, k - 1, n);
    }
  }
}

/** The sliding-window limiter: an ordered map of failure times per key, most recently used last, bounded
    by evicting from the front. */
module RateLimiter {
  import opened Strings

  type Key = string

  /** Keys from least to most recently used, and each key's failure times. */
  datatype Table = Table(order: seq<Key>, hits: map<Key, seq<real>>)

  datatype Answer = Allowed | Denied(retryAfter: int) | IndexError

  ghost predicate Valid(t: Table) {
    && (forall i, k :: 0 <= i < k < |t.order| ==> t.order[i] != t.order[k])
    && (forall x :: x in t.order <==> x in t.hits)
  }

  /* What each operation does to the table */

  /** Those of the first `n` keys that are not `x`. */
  function OthersTo(xs: seq<Key>, n: nat, x: Key): (r: seq<Key>)
    requires n <= |xs|
    ensures |r| <= n
    decreases n
  {
    if n == 0 then []
    else if xs[n - 1] == x then OthersTo(xs, n - 1, x)
    else OthersTo(xs, n - 1, x) + [xs[n - 1]]
  }

  function Without(xs: seq<Key>, x: Key): (r: seq<Key>)
    ensures |r| <= |xs|
  {
    OthersTo(xs, |xs|, x)
  }

  function PopFront(t: Table): Table
    requires t.order != []
  {
    Table(t.order[1..], t.hits - {t.order[0]})
  }

  function Evict(t: Table, maxKeys: nat): Table
    decreases |t.order|
  {
    if |t.order| > maxKeys then Evict(PopFront(t), maxKeys) else t
  }

  function Find(t: Table, key: Key): seq<real> {
    if key in t.hits then t.hits[key] else []
  }

  function MoveToEnd(t: Table, key: Key): Table {
    Table(Without(t.order, key) + [key], t.hits[key := Find(t, key)])
  }

  function Touch(t: Table, key: Key, maxKeys: nat): Table {
    Evict(MoveToEnd(t, key), maxKeys)
  }

  function Store(t: Table, key: Key, dq: seq<real>): Table {
    if key in t.hits then t.(hits := t.hits[key := dq]) else t
  }

  /** Drops the leading times that are not later than `bound`. */
  function Expire(dq: seq<real>, bound: real): (r: seq<real>)
    ensures |r| <= |dq|
  {
    if dq != [] && dq[0] <= bound then Expire(dq[1..], bound) else dq
  }

  function Verdict(dq: seq<real>, now: real, limit: int, window: real): Answer {
    if |dq| < limit then Allowed
    else if dq == [] then IndexError
    else
      var wait := Truncate(window - (now - dq[0])) + 1;
      Denied(if wait < 1 then 1 else wait)
  }

  function Truncate(x: real): int {
    if x >= 0.0 then x.Floor else -((-x).Floor)
  }

  function Checked(t: Table, key: Key, now: real, window: real, maxKeys: nat): Table {
    Store(Touch(t, key, maxKeys), key, Expire(Find(t, key), now - window))
  }

  function Recorded(t: Table, key: Key, now: real, maxKeys: nat): Table {
    Store(Touch(t, key, maxKeys), key, Find(t, key) + [now])
  }

  function Forgotten(t: Table, key: Key): Table {
    if key in t.hits then Table(Without(t.order, key), t.hits - {key}) else t
  }

  /* The class */

  class SlidingWindowLimiter {
    const max: int
    const window: real
    const maxKeys: nat
    var order: seq<Key>
    var hits: map<Key, seq<real>>

    constructor (max: int, window: real, maxKeys: nat)
      ensures this.max == max && this.window == window && this.maxKeys == maxKeys
      ensures View() == Table([], map[]) && Valid(View())
    {
      this.max, this.window, this.maxKeys := max, window, maxKeys;
      order, hits := [], map[];
    }

    function View(): Table
      reads this
    {
      Table(order, hits)
    }

    method TouchKey(key: Key) returns (dq: seq<real>)
      requires Valid(View())
      modifies this
      ensures View() == Touch(old(View()), key, maxKeys) && Valid(View())
      ensures dq == Find(old(View()), key)
    {
      MoveToEndValid(View(), key);
      dq := if key in hits then hits[key] else [];
      hits := hits[key := dq];
      order := Without(order, key) + [key];
      while |order| > maxKeys
        invariant Valid(View()) && Evict(View(), maxKeys) == Touch(old(View()), key, maxKeys)
        decreases |order|
      {
        PopFrontValid(View());
        hits := hits - {order[0]};
        order := order[1..];
      }
    }

    /** Whether another attempt is allowed, and if not how long to wait. The limits default to those
        given at construction. */
    method Check(key: Key, now: real, maxAttempts: Option<int>, windowSeconds: Option<real>) returns (a: Answer)
      requires Valid(View())
      modifies this
      ensures Valid(View())
      ensures var limit := if maxAttempts.Some? then maxAttempts.value else max;
              var w := if windowSeconds.Some? then windowSeconds.value else window;
              && View() == Checked(old(View()), key, now, w, maxKeys)
              && a == Verdict(Expire(Find(old(View()), key), now - w), now, limit, w)
    {
      var limit := if maxAttempts.Some? then maxAttempts.value else max;
      var w := if windowSeconds.Some? then windowSeconds.value else window;
      var dq := TouchKey(key);
      ghost var all := dq;
      while dq != [] && dq[0] <= now - w
        invariant Expire(dq, now - w) == Expire(all, now - w)
        decreases |dq|
      {
        dq := dq[1..];
      }
      if key in hits {
        hits := hits[key := dq];
      }
      a := Verdict(dq, now, limit, w);
    }

    method RecordFailure(key: Key, now: real)
      requires Valid(View())
      modifies this
      ensures View() == Recorded(old(View()), key, now, maxKeys) && Valid(View())
    {
      var dq := TouchKey(key);
      if key in hits {
        hits := hits[key := dq + [now]];
      }
    }

    method Reset(key: Key)
      requires Valid(View())
      modifies this
      ensures View() == Forgotten(old(View()), key) && Valid(View())
    {
      ForgottenValid(View(), key);
      if key in hits {
        hits := hits - {key};
        order := Without(order, key);
      }
    }
  }

  /* The table stays valid */

  lemma {:induction false} OthersMembers(xs: seq<Key>, n: nat, x: Key, y: Key)
    requires n <= |xs|
    ensures y in OthersTo(xs, n, x) <==> y in xs[..n] && y != x
    decreases n
  {
    if n > 0 {
      OthersMembers(xs, n - 1, x, y);
      assert xs[..n] == xs[..n - 1] + [xs[n - 1]];
    }
  }

  lemma WithoutMembers(xs: seq<Key>, x: Key, y: Key)
    ensures y in Without(xs, x) <==> y in xs && y != x
  {
    OthersMembers(xs, |xs|, x, y);
    assert xs[..|xs|] == xs;
  }

  lemma {:induction false} OthersDistinct(xs: seq<Key>, n: nat, x: Key)
    requires n <= |xs| && forall i, k :: 0 <= i < k < |xs| ==> xs[i] != xs[k]
    ensures forall i, k :: 0 <= i < k < |OthersTo(xs, n, x)| ==> OthersTo(xs, n, x)[i] != OthersTo(xs, n, x)[k]
    decreases n
  {
    if n > 0 {
      OthersDistinct(xs, n - 1, x);
      OthersMembers(xs, n - 1, x, xs[n - 1]);
    }
  }

  lemma MoveToEndValid(t: Table, key: Key)
    requires Valid(t)
    ensures Valid(MoveToEnd(t, key))
  {
    var rest := Without(t.order, key);
    OthersDistinct(t.order, |t.order|, key);
    forall y ensures y in rest <==> y in t.order && y != key {
      WithoutMembers(t.order, key, y);
    }
    assert forall i :: 0 <= i < |rest| ==> rest[i] in rest;
  }

  lemma ForgottenValid(t: Table, key: Key)
    requires Valid(t)
    ensures Valid(Forgotten(t, key))
  {
    OthersDistinct(t.order, |t.order|, key);
    forall y ensures y in Without(t.order, key) <==> y in t.order && y != key {
      WithoutMembers(t.order, key, y);
    }
  }

  lemma PopFrontValid(t: Table)
    requires Valid(t) && t.order != []
    ensures Valid(PopFront(t))
  {
  }
}

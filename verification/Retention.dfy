/** How long a tenant's rows are kept: the override row, the resolver used by the application, and the
    cutoff computed inside the purge statement. */
module Retention {
  import opened Strings

  const MIN_DAYS: int := 1
  const MAX_DAYS: int := 3650
  const INT_MAX: int := 2_147_483_647
  const DAY: int := 86_400_000_000

  /** A JSON value of an override. `Other` are fractions, arrays and objects, with their text. */
  datatype Json = Null | Bool(b: bool) | Int(n: int) | Text(s: string) | Other(text: string)

  type Overrides = map<string, Json>

  function Get(overrides: Overrides, store: string): Json {
    if store in overrides then overrides[store] else Null
  }

  /** The application's resolver: an integer in range overrides the default. */
  function EffectiveDays(v: Json, globalDefault: int): int {
    if v.Int? && MIN_DAYS <= v.n <= MAX_DAYS then v.n else globalDefault
  }

  /* The purge statement's resolver, which works on the text of the value */

  function TextOf(v: Json): Option<string> {
    match v
    case Null => None
    case Bool(b) => Some(if b then "true" else "false")
    case Int(n) => Some(if n >= 0 then Decimal(n) else ['-'] + Decimal(-n))
    case Text(s) => Some(s)
    case Other(text) => Some(text)
  }

  predicate IsDigit(c: char) {
    '0' <= c <= '9'
  }

  predicate AllDigits(s: string) {
    s != [] && forall i :: 0 <= i < |s| ==> IsDigit(s[i])
  }

  function Parse(s: string): (n: nat)
    requires forall i :: 0 <= i < |s| ==> IsDigit(s[i])
  {
    if s == [] then 0
    else
      var last := s[|s| - 1];
      assert IsDigit(last);
      Parse(s[..|s| - 1]) * 10 + (last as int - '0' as int)
  }

  function Clamp(n: int): int {
    if n < MIN_DAYS then MIN_DAYS else if n > MAX_DAYS then MAX_DAYS else n
  }

  /** None when the cast to a 32-bit integer fails, which aborts the statement. */
  function PurgeDays(v: Json, globalDefault: int): Option<int> {
    match TextOf(v)
    case None => Some(globalDefault)
    case Some(s) =>
      if !AllDigits(s) then Some(globalDefault)
      else if Parse(s) > INT_MAX then None
      else Some(Clamp(Parse(s)))
  }

  lemma {:induction false} ParseDecimal(n: nat)
    ensures Parse(Decimal(n)) == n
  {
    var s := Decimal(n);
    if n < 10 {
      assert s[..0] == [];
    } else {
      DecimalLast(n);
      ParseDecimal(n / 10);
    }
  }

  /** Fractions, arrays and objects never have all-digit text. */
  ghost predicate Proper(v: Json) {
    v.Other? ==> !AllDigits(v.text)
  }

  /** The number a value stands for in the purge statement. */
  function Number(v: Json): Option<nat> {
    if v.Int? && v.n >= 0 then Some(v.n)
    else if v.Text? && AllDigits(v.s) then Some(Parse(v.s))
    else None
  }

  lemma PurgeDaysIs(v: Json, globalDefault: int)
    requires Proper(v)
    ensures PurgeDays(v, globalDefault)
         == match Number(v)
            case None => Some(globalDefault)
            case Some(k) => if k > INT_MAX then None else Some(Clamp(k))
  {
    match v {
      case Null =>
      case Bool(b) =>
        assert !IsDigit("true"[0]) && !IsDigit("false"[0]);
      case Int(n) =>
        if n >= 0 {
          ParseDecimal(n);
        } else {
          assert !IsDigit((['-'] + Decimal(-n))[0]);
        }
      case Text(s) =>
      case Other(text) =>
    }
  }

  /** The two resolvers agree on a value exactly when it is an integer in range, or stands for no number,
      or happens to clamp to the default. */
  lemma ResolversAgreeExactlyWhen(v: Json, globalDefault: int)
    requires Proper(v)
    ensures PurgeDays(v, globalDefault) == Some(EffectiveDays(v, globalDefault))
       <==> || (v.Int? && MIN_DAYS <= v.n <= MAX_DAYS)
            || Number(v) == None
            || (Number(v).value <= INT_MAX && Clamp(Number(v).value) == globalDefault)
  {
    PurgeDaysIs(v, globalDefault);
  }

  /** They differ on an override of 5000 days, which the application ignores and the purge cuts to 3650. */
  lemma LongOverrideDiffers(globalDefault: int)
    requires globalDefault != MAX_DAYS
    ensures EffectiveDays(Int(5000), globalDefault) == globalDefault
    ensures PurgeDays(Int(5000), globalDefault) == Some(MAX_DAYS)
  {
    PurgeDaysIs(Int(5000), globalDefault);
  }

  /* What retention PUTs can store */

  /** One entry of a patch; None clears the override. */
  datatype Edit = Edit(store: string, days: Option<int>)

  predicate Accepted(patch: seq<Edit>) {
    forall i :: 0 <= i < |patch| ==>
      && (patch[i].store == "perimeter" || patch[i].store == "events" || patch[i].store == "metrics"
          || patch[i].store == "log_lake")
      && (patch[i].days.Some? ==> MIN_DAYS <= patch[i].days.value <= MAX_DAYS)
  }

  function Merge(overrides: Overrides, patch: seq<Edit>, n: nat): Overrides
    requires n <= |patch|
  {
    if n == 0 then overrides
    else
      var before := Merge(overrides, patch, n - 1);
      match patch[n - 1].days
      case None => before - {patch[n - 1].store}
      case Some(days) => before[patch[n - 1].store := Int(days)]
  }

  class TenantRetention {
    var overrides: Overrides

    constructor ()
      ensures overrides == map[]
    {
      overrides := map[];
    }

    method Upsert(patch: seq<Edit>) returns (merged: Overrides)
      modifies this
      ensures overrides == merged == Merge(old(overrides), patch, |patch|)
    {
      merged := overrides;
      for n := 0 to |patch|
        invariant merged == Merge(old(overrides), patch, n)
      {
        if patch[n].days == None {
          merged := merged - {patch[n].store};
        } else {
          merged := merged[patch[n].store := Int(patch[n].days.value)];
        }
      }
      overrides := merged;
    }
  }

  /** A patch sets or clears exactly the stores it names. */
  lemma {:induction false} MergeLookup(overrides: Overrides, patch: seq<Edit>, n: nat, store: string)
    requires n <= |patch| && forall i, k :: 0 <= i < k < |patch| ==> patch[i].store != patch[k].store
    ensures (forall i :: 0 <= i < n ==> patch[i].store != store) ==>
              Get(Merge(overrides, patch, n), store) == Get(overrides, store)
    ensures forall i :: 0 <= i < n && patch[i].store == store ==>
              Get(Merge(overrides, patch, n), store)
              == if patch[i].days.Some? then Int(patch[i].days.value) else Null
    decreases n
  {
    if n > 0 {
      MergeLookup(overrides, patch, n - 1, store);
    }
  }

  /** The overrides after `n` accepted PUTs, starting from none. */
  function After(patches: seq<seq<Edit>>, n: nat): Overrides
    requires n <= |patches|
  {
    if n == 0 then map[] else Merge(After(patches, n - 1), patches[n - 1], |patches[n - 1]|)
  }

  ghost predicate InRange(overrides: Overrides) {
    forall s :: s in overrides ==> overrides[s].Int? && MIN_DAYS <= overrides[s].n <= MAX_DAYS
  }

  lemma {:induction false} MergeInRange(overrides: Overrides, patch: seq<Edit>, n: nat)
    requires n <= |patch| && InRange(overrides) && Accepted(patch)
    ensures InRange(Merge(overrides, patch, n))
    decreases n
  {
    if n > 0 {
      MergeInRange(overrides, patch, n - 1);
    }
  }

  lemma {:induction false} PutsStayInRange(patches: seq<seq<Edit>>, n: nat)
    requires n <= |patches| && forall i :: 0 <= i < |patches| ==> Accepted(patches[i])
    ensures InRange(After(patches, n))
    decreases n
  {
    if n > 0 {
      PutsStayInRange(patches, n - 1);
      MergeInRange(After(patches, n - 1), patches[n - 1], |patches[n - 1]|);
    }
  }

  /** For every overrides map reachable by PUTs, every store and every default, the purge uses the days the
      application reports. */
  lemma ReachableOverridesAgree(patches: seq<seq<Edit>>, n: nat, store: string, globalDefault: int)
    requires n <= |patches| && forall i :: 0 <= i < |patches| ==> Accepted(patches[i])
    ensures var v := Get(After(patches, n), store);
            PurgeDays(v, globalDefault) == Some(EffectiveDays(v, globalDefault))
  {
    PutsStayInRange(patches, n);
    ResolversAgreeExactlyWhen(Get(After(patches, n), store), globalDefault);
  }

  /* The purge */

  datatype Row = Row(id: nat, tenant: nat, time: int)

  /** The tenants with their override rows, joined. */
  type Tenants = map<nat, Overrides>

  predicate PurgeFails(tenants: Tenants, store: string, globalDefault: int) {
    exists t | t in tenants :: PurgeDays(Get(tenants[t], store), globalDefault) == None
  }

  predicate Expired(r: Row, tenants: Tenants, store: string, now: int, globalDefault: int) {
    r.tenant in tenants &&
    var days := PurgeDays(Get(tenants[r.tenant], store), globalDefault);
    days.Some? && r.time < now - days.value * DAY
  }

  class Table {
    var rows: set<Row>

    constructor (rows: set<Row>)
      ensures this.rows == rows
    {
      this.rows := rows;
    }

    /** One statement for all tenants: it deletes every expired row, or fails and deletes none. */
    method Purge(tenants: Tenants, store: string, now: int, globalDefault: int) returns (deleted: Option<nat>)
      modifies this
      ensures deleted == None <==> PurgeFails(tenants, store, globalDefault)
      ensures deleted == None ==> rows == old(rows)
      ensures deleted.Some? ==> forall r :: r in rows <==> r in old(rows) && !Expired(r, tenants, store, now, globalDefault)
      ensures deleted.Some? ==> |old(rows)| == |rows| + deleted.value
    {
      if exists t | t in tenants :: PurgeDays(Get(tenants[t], store), globalDefault) == None {
        return None;
      }
      var gone := set r | r in rows && Expired(r, tenants, store, now, globalDefault);
      SizeOfRest(rows, gone);
      rows := rows - gone;
      return Some(|gone|);
    }
  }

  lemma SizeOfRest(rows: set<Row>, gone: set<Row>)
    requires gone <= rows
    ensures |rows - gone| + |gone| == |rows|
  {
    assert rows == (rows - gone) + gone;
  }

  /** When every tenant's overrides came from PUTs, the purge succeeds and a tenant's row goes exactly when
      it is older than the days the application reports. */
  lemma PurgeKeepsReported(tenants: Tenants, store: string, now: int, globalDefault: int, r: Row)
    requires forall t :: t in tenants ==> InRange(tenants[t])
    ensures !PurgeFails(tenants, store, globalDefault)
    ensures r.tenant in tenants ==>
              (Expired(r, tenants, store, now, globalDefault)
               <==> r.time < now - EffectiveDays(Get(tenants[r.tenant], store), globalDefault) * DAY)
  {
    forall t | t in tenants
      ensures PurgeDays(Get(tenants[t], store), globalDefault)
           == Some(EffectiveDays(Get(tenants[t], store), globalDefault))
    {
      ResolversAgreeExactlyWhen(Get(tenants[t], store), globalDefault);
    }
  }
}

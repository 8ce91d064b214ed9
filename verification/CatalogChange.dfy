/** A whole catalog change: scalar fields and grid ops, applied op by op to a device, and the change
    that undoes it. */
module CatalogChange {
  import opened Strings
  import opened DeviceStore
  import opened CatalogRevert

  datatype Payload = Payload(
    modelId: string,
    setPath: string,
    reconfigurePath: string,
    modelRoot: string,
    xmlPath: string,
    scalars: Fields,
    grids: seq<GridOp>)

  /** What a configuration snapshot shows of the store; encryption and compression are identities. */
  datatype Store = Store(scalars: Fields, rows: Rows)

  /** A missing element is read as the empty string. */
  function ReadScalar(s: Store, key: string): string {
    if key in s.scalars then s.scalars[key] else ""
  }

  /* Applying */

  /** The live meaning of a payload: a partial set of the scalars, then the grid ops in order. */
  function ApplyPayload(s: Store, p: Payload, ids: seq<Uuid>): Option<Store>
    requires |ids| == |p.grids|
  {
    match ApplyOps(s.rows, p.grids, ids)
    case None => None
    case Some(rows) => Some(Store(s.scalars + p.scalars, rows))
  }

  class Device {
    var scalars: Fields
    var rows: Rows
    var reloads: nat

    method ApplySetting(fields: Fields, accepted: bool) returns (ok: bool)
      modifies this`scalars
      ensures ok == accepted && scalars == if ok then old(scalars) + fields else old(scalars)
    {
      if accepted {
        scalars := scalars + fields;
      }
      ok := accepted;
    }

    method ApplyGridItem(op: GridOp, id: Uuid) returns (result: Option<GridResult>)
      modifies this`rows
      ensures result.None? ==> ApplyOp(old(rows), op, id).None? && rows == old(rows)
      ensures result.Some? ==> ApplyOp(old(rows), op, id) == Some(rows)
                               && result.value == GridResult(false, if op.Add? then Some(id) else None)
    {
      match ApplyOp(rows, op, id) {
        case None => result := None;
        case Some(after) =>
          rows := after;
          result := Some(GridResult(false, if op.Add? then Some(id) else None));
      }
    }

    method Reconfigure(accepted: bool) returns (ok: bool)
      modifies this`reloads
      ensures ok == accepted && reloads == if ok then old(reloads) + 1 else old(reloads)
    {
      if accepted {
        reloads := reloads + 1;
      }
      ok := accepted;
    }
  }

  /** How far a live run got: the device refused the scalars, a grid op or the reload, or it is done. */
  datatype Progress = ScalarsRefused | OpRefused(n: nat) | ReloadRefused | Complete(results: seq<GridResult>)

  /** The applier. The device accepts or refuses the scalars and the reload as `scalarsOk` and `reloadOk`
      say; an error leaves what went before it applied. */
  method ApplyCatalogSetting(device: Device, payload: Payload, ids: seq<Uuid>, dryRun: bool, scalarsOk: bool,
                             reloadOk: bool) returns (p: Progress)
    requires |ids| == |payload.grids|
    modifies device
    ensures dryRun ==> unchanged(device) && p.Complete? && |p.results| == |payload.grids|
                       && forall i :: 0 <= i < |p.results| ==> p.results[i] == GridResult(true, None)
    ensures !dryRun ==> (p == ScalarsRefused <==> payload.scalars != map[] && !scalarsOk)
    ensures !dryRun && p == ScalarsRefused ==> unchanged(device)
    ensures !dryRun && p != ScalarsRefused ==> device.scalars == old(device.scalars) + payload.scalars
    ensures !dryRun && p.OpRefused? ==>
              && p.n < |payload.grids| && device.reloads == old(device.reloads)
              && ApplyTo(old(device.rows), payload.grids, ids, p.n) == Some(device.rows)
              && ApplyOp(device.rows, payload.grids[p.n], ids[p.n]).None?
    ensures !dryRun && (p == ReloadRefused || p.Complete?) ==>
              ApplyPayload(old(Store(device.scalars, device.rows)), payload, ids)
              == Some(Store(device.scalars, device.rows))
    ensures !dryRun && p == ReloadRefused ==>
              !reloadOk && (payload.scalars != map[] || payload.grids != []) && device.reloads == old(device.reloads)
    ensures !dryRun && p.Complete? ==>
              && p.results == LiveResults(payload.grids, ids)
              && device.reloads == old(device.reloads) + if payload.scalars != map[] || payload.grids != [] then 1 else 0
  {
    var done: seq<GridResult> := [];
    if dryRun {
      for i := 0 to |payload.grids|
        invariant unchanged(device) && |done| == i
        invariant forall k :: 0 <= k < i ==> done[k] == GridResult(true, None)
      {
        done := done + [GridResult(true, None)];
      }
      return Complete(done);
    }
    if payload.scalars != map[] {
      var ok := device.ApplySetting(payload.scalars, scalarsOk);
      if !ok {
        return ScalarsRefused;
      }
    }
    for i := 0 to |payload.grids|
      invariant device.scalars == old(device.scalars) + payload.scalars
      invariant device.reloads == old(device.reloads)
      invariant ApplyTo(old(device.rows), payload.grids, ids, i) == Some(device.rows)
      invariant |done| == i && forall k :: 0 <= k < i ==> done[k] == LiveResults(payload.grids, ids)[k]
    {
      var result := device.ApplyGridItem(payload.grids[i], ids[i]);
      if result.None? {
        return OpRefused(i);
      }
      done := done + [result.value];
    }
    if payload.scalars != map[] || payload.grids != [] {
      var ok := device.Reconfigure(reloadOk);
      if !ok {
        return ReloadRefused;
      }
    }
    p := Complete(done);
  }

  /* Inverting */

  predicate NeedsSnapshot(p: Payload) {
    p.scalars != map[] || exists i :: 0 <= i < |p.grids| && (p.grids[i].Del? || p.grids[i].Set?)
  }

  function RowsOf(snapshot: Option<Store>): Rows {
    if snapshot.Some? then snapshot.value.rows else map[]
  }

  function PriorScalars(p: Payload, snapshot: Option<Store>): Fields {
    if snapshot.None? then map[] else map k | k in p.scalars :: ReadScalar(snapshot.value, k)
  }

  function InvertCatalog(target: string, p: Payload, results: seq<GridResult>, snapshot: Option<Store>)
    : Option<Payload>
  {
    if NeedsSnapshot(p) && (snapshot.None? || p.xmlPath == "") then None
    else
      match InvertOps(p.grids, results, RowsOf(snapshot))
      case None => None
      case Some(grids) =>
        Some(p.(modelId := if target != "" then target else p.modelId,
                scalars := PriorScalars(p, snapshot), grids := grids))
  }

  /** The loop that looks up the prior value of each touched field. */
  method ReadSettings(snapshot: Store, keys: set<string>) returns (out: Fields)
    ensures out.Keys == keys && forall k :: k in keys ==> out[k] == ReadScalar(snapshot, k)
  {
    out := map[];
    var left := keys;
    while left != {}
      invariant left <= keys && out.Keys == keys - left
      invariant forall k :: k in out ==> out[k] == ReadScalar(snapshot, k)
      decreases left
    {
      var key :| key in left;
      out := out[key := ReadScalar(snapshot, key)];
      left := left - {key};
    }
  }

  method InvertGrids(ops: seq<GridOp>, results: seq<GridResult>, rows: Rows) returns (inv: Option<seq<GridOp>>)
    ensures inv == InvertOps(ops, results, rows)
  {
    var out: seq<GridOp> := [];
    for i := 0 to |ops|
      invariant InvertTo(ops, results, rows, i) == Some(out)
    {
      match InvertOp(ops[i], ResultAt(results, i), rows) {
        case None =>
          InvertFails(ops, results, rows, i + 1);
          return None;
        case Some(step) => out := out + step;
      }
    }
    inv := Some(out);
  }

  lemma {:induction false} InvertFailsOn(ops: seq<GridOp>, results: seq<GridResult>, rows: Rows, n: nat, m: nat)
    requires n <= m <= |ops| && InvertTo(ops, results, rows, n).None?
    ensures InvertTo(ops, results, rows, m).None?
    decreases m
  {
    if n < m {
      InvertFailsOn(ops, results, rows, n, m - 1);
    }
  }

  lemma InvertFails(ops: seq<GridOp>, results: seq<GridResult>, rows: Rows, n: nat)
    requires n <= |ops| && InvertTo(ops, results, rows, n).None?
    ensures InvertOps(ops, results, rows).None?
  {
    InvertFailsOn(ops, results, rows, n, |ops|);
  }

  method InvertCatalogSetting(target: string, payload: Payload, results: seq<GridResult>, snapshot: Option<Store>)
    returns (inverse: Option<Payload>)
    ensures inverse == InvertCatalog(target, payload, results, snapshot)
  {
    if NeedsSnapshot(payload) && (snapshot.None? || payload.xmlPath == "") {
      return None;
    }
    var scalars: Fields := map[];
    if snapshot.Some? {
      scalars := ReadSettings(snapshot.value, payload.scalars.Keys);
      assert scalars == PriorScalars(payload, snapshot);
    }
    var grids := InvertGrids(payload.grids, results, RowsOf(snapshot));
    match grids {
      case None => inverse := None;
      case Some(ops) =>
        inverse := Some(payload.(modelId := if target != "" then target else payload.modelId,
                                 scalars := scalars, grids := ops));
    }
  }

  /* What the inverse is */

  /** A row the op names is not in the snapshot. */
  ghost predicate Unknown(op: GridOp, rows: Rows) {
    (op.Set? || op.Del?) && op.uuid !in rows
  }

  lemma {:induction false} OpsRefusedWhen(ops: seq<GridOp>, results: seq<GridResult>, rows: Rows, n: nat)
    requires n <= |ops|
    ensures InvertTo(ops, results, rows, n).None? <==> exists i :: 0 <= i < n && Unknown(ops[i], rows)
    decreases n
  {
    if n > 0 {
      OpsRefusedWhen(ops, results, rows, n - 1);
      assert InvertOp(ops[n - 1], ResultAt(results, n - 1), rows).None? <==> Unknown(ops[n - 1], rows);
    }
  }

  /** Some scalar is set, or some existing row is named. */
  ghost predicate Restores(p: Payload) {
    (exists k :: k in p.scalars) || exists i :: 0 <= i < |p.grids| && !p.grids[i].Add? && !p.grids[i].Other?
  }

  /** A revert is refused exactly when there is prior state to restore and no snapshot or no path to find it
      by, or a row that was set or deleted is missing from the snapshot. */
  lemma RefusedExactlyWhen(target: string, p: Payload, results: seq<GridResult>, snapshot: Option<Store>)
    ensures InvertCatalog(target, p, results, snapshot).None?
       <==> (Restores(p) && (snapshot.None? || p.xmlPath == ""))
            || exists i :: 0 <= i < |p.grids| && Unknown(p.grids[i], RowsOf(snapshot))
  {
    OpsRefusedWhen(p.grids, results, RowsOf(snapshot), |p.grids|);
    NeedsWhatItRestores(p);
  }

  /** It goes where the change went and sets the fields the change set, to what the snapshot shows. */
  lemma InverseAims(target: string, p: Payload, results: seq<GridResult>, snapshot: Option<Store>)
    requires InvertCatalog(target, p, results, snapshot).Some?
    ensures var inverse := InvertCatalog(target, p, results, snapshot).value;
            && inverse.setPath == p.setPath && inverse.reconfigurePath == p.reconfigurePath
            && inverse.modelRoot == p.modelRoot && inverse.xmlPath == p.xmlPath
            && inverse.modelId == (if target == "" then p.modelId else target)
            && inverse.scalars.Keys == p.scalars.Keys
            && forall k :: k in p.scalars ==>
                 && snapshot.Some?
                 && inverse.scalars[k] == if k in snapshot.value.scalars then snapshot.value.scalars[k] else ""
  {
    NeedsWhatItRestores(p);
  }

  /** Op `i` really added row `u`: it was not a dry run, and the device answered with the uuid. */
  ghost predicate Added(ops: seq<GridOp>, results: seq<GridResult>, i: nat, grid: string, u: Uuid) {
    && i < |ops| && ops[i].Add? && ops[i].grid == grid
    && i < |results| && results[i] == GridResult(false, Some(u)) && u != ""
  }

  /** What the inverse consists of, whatever the recorded results, which may be too few: a deletion of every
      row that was really added, the prior item of every row that was set, and a new row for every one that
      was deleted. */
  lemma {:induction false} InverseHolds(ops: seq<GridOp>, results: seq<GridResult>, rows: Rows, n: nat, op: GridOp)
    requires n <= |ops| && InvertTo(ops, results, rows, n).Some?
    ensures op in InvertTo(ops, results, rows, n).value
       <==> match op
            case Del(grid, u) => exists i :: 0 <= i < n && Added(ops, results, i, grid, u)
            case Set(grid, u, item) =>
              exists i :: 0 <= i < n && ops[i].Set? && ops[i].grid == grid && ops[i].uuid == u
                          && u in rows && rows[u].item == item
            case Add(grid, item) =>
              exists i :: 0 <= i < n && ops[i].Del? && ops[i].grid == grid && ops[i].uuid in rows
                          && rows[ops[i].uuid].item == item
            case Other(_, _) => false
    decreases n
  {
    if n > 0 {
      InverseHolds(ops, results, rows, n - 1, op);
      var step := InvertOp(ops[n - 1], ResultAt(results, n - 1), rows).value;
      assert op in InvertTo(ops, results, rows, n).value
        <==> op in InvertTo(ops, results, rows, n - 1).value || op in step;
      if op.Del? {
        assert op in step <==> Added(ops, results, n - 1, op.grid, op.uuid);
      }
    }
  }

  lemma {:induction false} AddsNeedNoRows(ops: seq<GridOp>, results: seq<GridResult>, rows: Rows, n: nat)
    requires n <= |ops| && forall i :: 0 <= i < |ops| ==> ops[i].Add? || ops[i].Other?
    ensures InvertTo(ops, results, rows, n) == InvertTo(ops, results, map[], n)
    decreases n
  {
    if n > 0 {
      AddsNeedNoRows(ops, results, rows, n - 1);
    }
  }

  /* The inverse restores the store */

  /** The field is as it was; one that was missing may have become empty. */
  ghost predicate SameField(was: Fields, now: Fields, k: string) {
    if k in was then k in now && now[k] == was[k] else k in now ==> now[k] == ""
  }

  /** The inverse is built from the pre-apply snapshot, if one was `stored`, is accepted by the device, and
      gives back every scalar, touched or not, and every row. */
  ghost predicate RevertRestores(before: Store, stored: bool, target: string, p: Payload, ids: seq<Uuid>, after: Store,
                                 jds: seq<Uuid>)
    requires |ids| == |p.grids| == |jds|
  {
    var inverse := InvertCatalog(target, p, LiveResults(p.grids, ids), if stored then Some(before) else None);
    && inverse.Some? && |inverse.value.grids| == |p.grids|
    && ApplyPayload(after, inverse.value, jds).Some?
    && (var final := ApplyPayload(after, inverse.value, jds).value;
        && (forall k :: SameField(before.scalars, final.scalars, k))
        && Restored(before.rows, p.grids, final.rows))
  }

  /** A fully applied live catalog change is undone by its revert exactly when a snapshot was stored and the
      model's path in it is recorded (where they are needed), every `set` and `del` names a row its grid had,
      and no row is both deleted and named by another op. */
  lemma CatalogRevertExactlyWhen(before: Store, stored: bool, target: string, p: Payload, ids: seq<Uuid>, after: Store,
                                 jds: seq<Uuid>)
    requires |ids| == |p.grids| == |jds|
    requires ApplyPayload(before, p, ids) == Some(after)
    requires Reverting(before.rows, p.grids, ids, after.rows, jds)
    ensures RevertRestores(before, stored, target, p, ids, after, jds)
            <==> (Restores(p) ==> stored && p.xmlPath != "") && Restorable(before.rows, p.grids)
  {
    GridRevertExactlyWhen(before.rows, p.grids, ids, after.rows, jds);
    NeedsWhatItRestores(p);
    if !Restores(p) {
      AddsNeedNoRows(p.grids, LiveResults(p.grids, ids), before.rows, |p.grids|);
    }
    var snapshot := if stored then Some(before) else None;
    var inverse := InvertCatalog(target, p, LiveResults(p.grids, ids), snapshot);
    if inverse.Some? && |inverse.value.grids| == |p.grids| && ApplyPayload(after, inverse.value, jds).Some? {
      var final := ApplyPayload(after, inverse.value, jds).value;
      forall k ensures SameField(before.scalars, final.scalars, k) {
        ScalarRestored(before, stored, p, after, final, k);
      }
    }
  }

  lemma NeedsWhatItRestores(p: Payload)
    ensures NeedsSnapshot(p) <==> Restores(p)
  {
    if p.scalars != map[] {
      assert exists k :: k in p.scalars;
    }
  }

  lemma ScalarRestored(before: Store, stored: bool, p: Payload, after: Store, final: Store, k: string)
    requires after.scalars == before.scalars + p.scalars && (stored || p.scalars == map[])
    requires final.scalars == after.scalars + PriorScalars(p, if stored then Some(before) else None)
    ensures SameField(before.scalars, final.scalars, k)
  {
  }
}

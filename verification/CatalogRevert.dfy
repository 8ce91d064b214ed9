/** Applying a catalog change to a device, and the change that reverts it. */
module CatalogRevert {
  import opened Strings
  import opened DeviceStore

  /* The forward change */

  datatype GridOp =
    | Add(grid: string, item: Fields)
    | Set(grid: string, uuid: Uuid, item: Fields)
    | Del(grid: string, uuid: Uuid)
    | Other(grid: string, op: string)

  /** One grid write. `id` is the uuid the device hands out if the op adds a row. A `set` of a row the
      grid does not have is rejected; a `del` of one is answered "not found", which the client lets
      pass. None stands for an ApiError. */
  function ApplyOp(rows: Rows, op: GridOp, id: Uuid): Option<Rows> {
    match op
    case Add(grid, item) => Some(rows[id := Row(grid, item)])
    case Set(grid, uuid, item) =>
      if PlainName(uuid) && Holds(rows, grid, uuid) then Some(rows[uuid := Row(grid, item)]) else None
    case Del(grid, uuid) =>
      if !PlainName(uuid) then None
      else if Holds(rows, grid, uuid) then Some(rows - {uuid})
      else Some(rows)
    case Other(_, _) => None
  }

  predicate Holds(rows: Rows, grid: string, uuid: Uuid) {
    uuid in rows && rows[uuid].grid == grid
  }

  /** The rows after the first `n` ops, or None once one was rejected. */
  function ApplyTo(rows: Rows, ops: seq<GridOp>, ids: seq<Uuid>, n: nat): Option<Rows>
    requires n <= |ops| == |ids|
  {
    if n == 0 then Some(rows)
    else
      match ApplyTo(rows, ops, ids, n - 1)
      case None => None
      case Some(r) => ApplyOp(r, ops[n - 1], ids[n - 1])
  }

  function ApplyOps(rows: Rows, ops: seq<GridOp>, ids: seq<Uuid>): Option<Rows>
    requires |ids| == |ops|
  {
    ApplyTo(rows, ops, ids, |ops|)
  }

  /** The device names a new row as it has named none before. */
  ghost predicate FreshIds(known: set<Uuid>, ids: seq<Uuid>) {
    && (forall i :: 0 <= i < |ids| ==> ids[i] !in known)
    && (forall i, j :: 0 <= i < j < |ids| ==> ids[i] != ids[j])
  }

  ghost predicate AllSafe(ids: seq<Uuid>) {
    forall i :: 0 <= i < |ids| ==> PlainName(ids[i])
  }

  /* The inverse change */

  /** What the applier recorded for one grid op. */
  datatype GridResult = GridResult(dryRun: bool, uuid: Option<Uuid>)

  /** The recorded results of a live run: only an `add` is answered with a uuid. */
  function LiveResults(ops: seq<GridOp>, ids: seq<Uuid>): seq<GridResult>
    requires |ids| == |ops|
  {
    seq(|ops|, i requires 0 <= i < |ops| =>
      GridResult(false, if ops[i].Add? then Some(ids[i]) else None))
  }

  /** The prior row comes from the snapshot, wherever in the model's subtree it is. */
  function InvertOp(op: GridOp, result: Option<GridResult>, snapshot: Rows): Option<seq<GridOp>> {
    match op
    case Del(grid, uuid) =>
      if uuid in snapshot then Some([Add(grid, snapshot[uuid].item)]) else None
    case Set(grid, uuid, _) =>
      if uuid in snapshot then Some([Set(grid, uuid, snapshot[uuid].item)]) else None
    case Add(grid, _) =>
      if result.Some? && !result.value.dryRun && result.value.uuid.Some? && result.value.uuid.value != ""
      then Some([Del(grid, result.value.uuid.value)])
      else Some([])
    case Other(_, _) => Some([])
  }

  function ResultAt(results: seq<GridResult>, i: nat): Option<GridResult> {
    if i < |results| then Some(results[i]) else None
  }

  /** The inverses of the first `n` ops, in payload order; None stands for NoInverseError. */
  function InvertTo(ops: seq<GridOp>, results: seq<GridResult>, snapshot: Rows, n: nat): Option<seq<GridOp>>
    requires n <= |ops|
  {
    if n == 0 then Some([])
    else
      match InvertTo(ops, results, snapshot, n - 1)
      case None => None
      case Some(front) =>
        match InvertOp(ops[n - 1], ResultAt(results, n - 1), snapshot)
        case None => None
        case Some(last) => Some(front + last)
  }

  function InvertOps(ops: seq<GridOp>, results: seq<GridResult>, snapshot: Rows): Option<seq<GridOp>> {
    InvertTo(ops, results, snapshot, |ops|)
  }

  /* When the inverse restores the grid rows */

  ghost predicate Names(op: GridOp, uuid: Uuid) {
    (op.Set? || op.Del?) && op.uuid == uuid
  }

  /** Every `set` and `del` names a row its grid has in the snapshot. */
  ghost predicate NamesExisting(ops: seq<GridOp>, snapshot: Rows) {
    forall i :: 0 <= i < |ops| && (ops[i].Set? || ops[i].Del?) ==>
      Holds(snapshot, ops[i].grid, ops[i].uuid)
  }

  /** No other op names a row that is deleted. */
  ghost predicate DeletesAlone(ops: seq<GridOp>) {
    forall i, j :: 0 <= i < |ops| && 0 <= j < |ops| && i != j && ops[i].Del? ==> !Names(ops[j], ops[i].uuid)
  }

  /** One of the first `n` ops deletes the row. */
  ghost predicate Deleted(ops: seq<GridOp>, n: nat, uuid: Uuid)
    requires n <= |ops|
  {
    exists i :: 0 <= i < n && ops[i].Del? && ops[i].uuid == uuid
  }

  /** One of the first `n` ops sets the row. */
  ghost predicate IsSet(ops: seq<GridOp>, n: nat, uuid: Uuid)
    requires n <= |ops|
  {
    exists i :: 0 <= i < n && ops[i].Set? && ops[i].uuid == uuid
  }

  ghost predicate AddedAs(ops: seq<GridOp>, ids: seq<Uuid>, from: nat, uuid: Uuid)
    requires |ids| == |ops|
  {
    exists i :: from <= i < |ops| && ops[i].Add? && ids[i] == uuid
  }

  /** What the first `n` ops do to a row of the snapshot. */
  ghost predicate KnownRow(snapshot: Rows, ops: seq<GridOp>, n: nat, rows: Rows, u: Uuid)
    requires n <= |ops| && u in snapshot
  {
    && (u in rows <==> !Deleted(ops, n, u))
    && (u in rows ==> rows[u].grid == snapshot[u].grid)
    && (u in rows && !IsSet(ops, n, u) ==> rows[u] == snapshot[u])
  }

  lemma {:induction false} ForwardKnown(snapshot: Rows, ops: seq<GridOp>, ids: seq<Uuid>, n: nat, u: Uuid)
    requires n <= |ops| == |ids| && ApplyTo(snapshot, ops, ids, n).Some?
    requires FreshIds(snapshot.Keys, ids) && NamesExisting(ops, snapshot) && u in snapshot
    ensures KnownRow(snapshot, ops, n, ApplyTo(snapshot, ops, ids, n).value, u)
    decreases n
  {
    if n > 0 {
      ForwardKnown(snapshot, ops, ids, n - 1, u);
      assert ids[n - 1] != u;
    }
  }

  lemma {:induction false} ForwardAdded(snapshot: Rows, ops: seq<GridOp>, ids: seq<Uuid>, n: nat, i: nat)
    requires i < n <= |ops| == |ids| && ApplyTo(snapshot, ops, ids, n).Some?
    requires FreshIds(snapshot.Keys, ids) && AllInvertible(ops, |ops|, snapshot) && ops[i].Add?
    ensures Holds(ApplyTo(snapshot, ops, ids, n).value, ops[i].grid, ids[i])
    decreases n
  {
    if i < n - 1 {
      ForwardAdded(snapshot, ops, ids, n - 1, i);
      assert ids[i] != ids[n - 1];
    }
  }

  lemma {:induction false} ForwardNew(snapshot: Rows, ops: seq<GridOp>, ids: seq<Uuid>, n: nat, u: Uuid) returns (i: nat)
    requires n <= |ops| == |ids| && ApplyTo(snapshot, ops, ids, n).Some?
    requires u in ApplyTo(snapshot, ops, ids, n).value && u !in snapshot
    ensures i < n && ops[i].Add? && ids[i] == u
    decreases n
  {
    if ops[n - 1].Add? && u == ids[n - 1] {
      i := n - 1;
    } else {
      i := ForwardNew(snapshot, ops, ids, n - 1, u);
    }
  }

  /* Running the inverse */

  /** On a live run every op has exactly one inverse. */
  function Inverse(op: GridOp, id: Uuid, snapshot: Rows): GridOp {
    match op
    case Del(grid, uuid) => Add(grid, if uuid in snapshot then snapshot[uuid].item else map[])
    case Set(grid, uuid, _) => Set(grid, uuid, if uuid in snapshot then snapshot[uuid].item else map[])
    case Add(grid, _) => Del(grid, id)
    case Other(_, _) => op
  }

  ghost predicate CanInvert(op: GridOp, snapshot: Rows) {
    op.Set? || op.Del? ==> op.uuid in snapshot
  }

  function Inverses(ops: seq<GridOp>, ids: seq<Uuid>, snapshot: Rows): seq<GridOp>
    requires |ids| == |ops|
  {
    seq(|ops|, i requires 0 <= i < |ops| => Inverse(ops[i], ids[i], snapshot))
  }

  lemma InvertLiveOp(op: GridOp, id: Uuid, snapshot: Rows)
    requires id != "" && !op.Other?
    ensures InvertOp(op, Some(GridResult(false, if op.Add? then Some(id) else None)), snapshot)
            == if CanInvert(op, snapshot) then Some([Inverse(op, id, snapshot)]) else None
  {
  }

  /** The applier appends results in payload order, so results and ops are aligned. */
  ghost predicate Aligned(ops: seq<GridOp>, ids: seq<Uuid>, results: seq<GridResult>) {
    |ids| == |ops| && |results| >= |ops| && forall i :: 0 <= i < |ops| ==>
      results[i] == GridResult(false, if ops[i].Add? then Some(ids[i]) else None)
  }

  ghost predicate Plain(ops: seq<GridOp>, ids: seq<Uuid>) {
    (forall i :: 0 <= i < |ops| ==> !ops[i].Other?) && (forall i :: 0 <= i < |ids| ==> ids[i] != "")
  }

  ghost predicate AllInvertible(ops: seq<GridOp>, n: nat, snapshot: Rows)
    requires n <= |ops|
  {
    forall i :: 0 <= i < n ==> CanInvert(ops[i], snapshot)
  }

  lemma {:induction false} LiveInverse(ops: seq<GridOp>, ids: seq<Uuid>, results: seq<GridResult>, snapshot: Rows, n: nat)
    requires n <= |ops| && Aligned(ops, ids, results) && Plain(ops, ids)
    ensures InvertTo(ops, results, snapshot, n)
            == if AllInvertible(ops, n, snapshot) then Some(Inverses(ops, ids, snapshot)[..n]) else None
    decreases n
  {
    if n > 0 {
      LiveInverse(ops, ids, results, snapshot, n - 1);
      InvertLiveOp(ops[n - 1], ids[n - 1], snapshot);
      var inv := Inverses(ops, ids, snapshot);
      assert inv[..n] == inv[..n - 1] + [inv[n - 1]];
    }
  }

  /* The forward run and the snapshot it started from */

  ghost predicate Applied(snapshot: Rows, ops: seq<GridOp>, ids: seq<Uuid>) {
    && |ids| == |ops| && FreshIds(snapshot.Keys, ids) && AllSafe(ids)
    && ApplyOps(snapshot, ops, ids).Some?
  }

  lemma {:induction false} AppliedOps(snapshot: Rows, ops: seq<GridOp>, ids: seq<Uuid>, n: nat, i: nat)
    requires i < n <= |ops| == |ids| && ApplyTo(snapshot, ops, ids, n).Some?
    ensures !ops[i].Other? && (ops[i].Set? || ops[i].Del? ==> PlainName(ops[i].uuid))
    decreases n
  {
    if i < n - 1 {
      AppliedOps(snapshot, ops, ids, n - 1, i);
    }
  }

  ghost predicate Restorable(snapshot: Rows, ops: seq<GridOp>) {
    NamesExisting(ops, snapshot) && DeletesAlone(ops)
  }

  ghost predicate Reverting(snapshot: Rows, ops: seq<GridOp>, ids: seq<Uuid>, rows: Rows, jds: seq<Uuid>) {
    && Applied(snapshot, ops, ids) && ApplyOps(snapshot, ops, ids) == Some(rows)
    && |jds| == |ops| && FreshIds(snapshot.Keys, jds) && FreshIds(rows.Keys, jds)
  }

  /** What the inverse run needs to know about the names in play. */
  ghost predicate NamesApart(snapshot: Rows, ops: seq<GridOp>, ids: seq<Uuid>, jds: seq<Uuid>) {
    && |ids| == |ops| == |jds|
    && FreshIds(snapshot.Keys, ids) && FreshIds(snapshot.Keys, jds)
    && (forall i, j :: 0 <= i < |ids| && 0 <= j < |jds| && ops[i].Add? ==> ids[i] != jds[j])
  }

  ghost predicate SafeOps(ops: seq<GridOp>, ids: seq<Uuid>) {
    && AllSafe(ids) && |ids| == |ops|
    && (forall i :: 0 <= i < |ops| ==>
          !ops[i].Other? && (ops[i].Set? || ops[i].Del? ==> PlainName(ops[i].uuid)))
  }

  lemma RevertingNames(snapshot: Rows, ops: seq<GridOp>, ids: seq<Uuid>, rows: Rows, jds: seq<Uuid>)
    requires Reverting(snapshot, ops, ids, rows, jds) && NamesExisting(ops, snapshot)
    ensures NamesApart(snapshot, ops, ids, jds) && SafeOps(ops, ids)
  {
    forall i, j | 0 <= i < |ids| && 0 <= j < |jds| && ops[i].Add? ensures ids[i] != jds[j] {
      ForwardAdded(snapshot, ops, ids, |ops|, i);
    }
    forall i | 0 <= i < |ops| ensures !ops[i].Other? && (ops[i].Set? || ops[i].Del? ==> PlainName(ops[i].uuid)) {
      AppliedOps(snapshot, ops, ids, |ops|, i);
    }
  }

  /** A row of the snapshot that the payload does not delete, after the first `n` inverse ops. */
  ghost predicate Settled(snapshot: Rows, ops: seq<GridOp>, n: nat, rows: Rows, u: Uuid)
    requires u in snapshot && n <= |ops|
  {
    !Deleted(ops, |ops|, u) ==>
      && u in rows && rows[u].grid == snapshot[u].grid
      && (IsSet(ops, n, u) || !IsSet(ops, |ops|, u) ==> rows[u] == snapshot[u])
  }

  /** The uuids under which the first `n` inverse ops re-add rows. */
  ghost function Readded(ops: seq<GridOp>, jds: seq<Uuid>, n: nat): set<Uuid>
    requires n <= |ops| == |jds|
  {
    if n == 0 then {} else Readded(ops, jds, n - 1) + if ops[n - 1].Del? then {jds[n - 1]} else {}
  }

  lemma {:induction false} ReaddedFrom(ops: seq<GridOp>, jds: seq<Uuid>, n: nat, u: Uuid) returns (i: nat)
    requires n <= |ops| == |jds| && u in Readded(ops, jds, n)
    ensures i < n && ops[i].Del? && jds[i] == u
    decreases n
  {
    if ops[n - 1].Del? && jds[n - 1] == u {
      i := n - 1;
    } else {
      i := ReaddedFrom(ops, jds, n - 1, u);
    }
  }

  ghost predicate Settles(snapshot: Rows, ops: seq<GridOp>, n: nat, rows: Rows)
    requires n <= |ops|
  {
    forall u :: u in snapshot ==> Settled(snapshot, ops, n, rows, u)
  }

  ghost predicate Readds(snapshot: Rows, ops: seq<GridOp>, jds: seq<Uuid>, n: nat, rows: Rows)
    requires n <= |ops| == |jds| && NamesExisting(ops, snapshot)
  {
    forall i :: 0 <= i < n && ops[i].Del? ==> jds[i] in rows && rows[jds[i]] == snapshot[ops[i].uuid]
  }

  ghost predicate StillAdded(ops: seq<GridOp>, ids: seq<Uuid>, n: nat, rows: Rows)
    requires n <= |ops| == |ids|
  {
    forall i :: n <= i < |ops| && ops[i].Add? ==> Holds(rows, ops[i].grid, ids[i])
  }

  ghost predicate Origin(snapshot: Rows, ops: seq<GridOp>, ids: seq<Uuid>, jds: seq<Uuid>, n: nat, u: Uuid)
    requires n <= |ops| == |ids| == |jds|
  {
    (u in snapshot && !Deleted(ops, |ops|, u)) || u in Readded(ops, jds, n) || AddedAs(ops, ids, n, u)
  }

  ghost predicate Origins(snapshot: Rows, ops: seq<GridOp>, ids: seq<Uuid>, jds: seq<Uuid>, n: nat, rows: Rows)
    requires n <= |ops| == |ids| == |jds|
  {
    forall u :: u in rows ==> Origin(snapshot, ops, ids, jds, n, u)
  }

  /** The rows after the first `n` inverse ops. */
  ghost predicate Midway(snapshot: Rows, ops: seq<GridOp>, ids: seq<Uuid>, jds: seq<Uuid>, n: nat, rows: Rows)
    requires n <= |ops| == |ids| == |jds| && NamesExisting(ops, snapshot)
  {
    && Settles(snapshot, ops, n, rows) && Readds(snapshot, ops, jds, n, rows)
    && StillAdded(ops, ids, n, rows) && Origins(snapshot, ops, ids, jds, n, rows)
  }

  lemma MidwayStart(snapshot: Rows, ops: seq<GridOp>, ids: seq<Uuid>, rows: Rows, jds: seq<Uuid>)
    requires Reverting(snapshot, ops, ids, rows, jds) && NamesExisting(ops, snapshot)
    ensures Midway(snapshot, ops, ids, jds, 0, rows)
  {
    forall u | u in snapshot ensures Settled(snapshot, ops, 0, rows, u) {
      ForwardKnown(snapshot, ops, ids, |ops|, u);
    }
    forall i | 0 <= i < |ops| && ops[i].Add? ensures Holds(rows, ops[i].grid, ids[i]) {
      ForwardAdded(snapshot, ops, ids, |ops|, i);
    }
    forall u | u in rows ensures Origin(snapshot, ops, ids, jds, 0, u) {
      if u in snapshot {
        ForwardKnown(snapshot, ops, ids, |ops|, u);
      } else {
        var i := ForwardNew(snapshot, ops, ids, |ops|, u);
      }
    }
  }

  /** `after` differs from `before` at `k` only. */
  ghost predicate OnlyAt(before: Rows, after: Rows, k: Uuid) {
    && (forall u :: u in before && u != k ==> u in after && after[u] == before[u])
    && (forall u :: u in after && u != k ==> u in before)
  }

  lemma SettlesNext(snapshot: Rows, ops: seq<GridOp>, n: nat, before: Rows, after: Rows, k: Uuid)
    requires n < |ops| && Settles(snapshot, ops, n, before) && OnlyAt(before, after, k)
    requires k in snapshot ==> k in after && after[k] == snapshot[k]
    requires ops[n].Set? ==> ops[n].uuid == k
    ensures Settles(snapshot, ops, n + 1, after)
  {
    forall u | u in snapshot ensures Settled(snapshot, ops, n + 1, after, u) {
      assert Settled(snapshot, ops, n, before, u);
    }
  }

  lemma ReaddsNext(snapshot: Rows, ops: seq<GridOp>, jds: seq<Uuid>, n: nat, before: Rows, after: Rows, k: Uuid)
    requires n < |ops| == |jds| && NamesExisting(ops, snapshot)
    requires Readds(snapshot, ops, jds, n, before) && OnlyAt(before, after, k)
    requires forall i :: 0 <= i < n && ops[i].Del? ==> jds[i] != k
    requires ops[n].Del? ==> jds[n] in after && after[jds[n]] == snapshot[ops[n].uuid]
    ensures Readds(snapshot, ops, jds, n + 1, after)
  {
  }

  lemma StillAddedNext(ops: seq<GridOp>, ids: seq<Uuid>, n: nat, before: Rows, after: Rows, k: Uuid)
    requires n < |ops| == |ids| && StillAdded(ops, ids, n, before) && OnlyAt(before, after, k)
    requires forall i :: n < i < |ops| && ops[i].Add? ==> ids[i] != k
    ensures StillAdded(ops, ids, n + 1, after)
  {
  }

  lemma OriginNext(snapshot: Rows, ops: seq<GridOp>, ids: seq<Uuid>, jds: seq<Uuid>, n: nat, u: Uuid)
    requires n < |ops| == |ids| == |jds| && Origin(snapshot, ops, ids, jds, n, u)
    requires ops[n].Add? ==> ids[n] != u
    ensures Origin(snapshot, ops, ids, jds, n + 1, u)
  {
  }

  lemma OriginsNext(snapshot: Rows, ops: seq<GridOp>, ids: seq<Uuid>, jds: seq<Uuid>, n: nat,
                    before: Rows, after: Rows, k: Uuid)
    requires n < |ops| == |ids| == |jds|
    requires Origins(snapshot, ops, ids, jds, n, before) && OnlyAt(before, after, k)
    requires ops[n].Add? ==> ids[n] == k
    requires k in after ==> Origin(snapshot, ops, ids, jds, n + 1, k)
    ensures Origins(snapshot, ops, ids, jds, n + 1, after)
  {
    forall u | u in after ensures Origin(snapshot, ops, ids, jds, n + 1, u) {
      if u != k {
        OriginNext(snapshot, ops, ids, jds, n, u);
      }
    }
  }

  lemma MidwayDel(snapshot: Rows, ops: seq<GridOp>, ids: seq<Uuid>, jds: seq<Uuid>, n: nat, before: Rows)
    requires NamesApart(snapshot, ops, ids, jds) && NamesExisting(ops, snapshot) && n < |ops| && ops[n].Del?
    requires Midway(snapshot, ops, ids, jds, n, before)
    ensures Midway(snapshot, ops, ids, jds, n + 1, before[jds[n] := snapshot[ops[n].uuid]])
  {
    var k, after := jds[n], before[jds[n] := snapshot[ops[n].uuid]];
    SettlesNext(snapshot, ops, n, before, after, k);
    ReaddsNext(snapshot, ops, jds, n, before, after, k);
    StillAddedNext(ops, ids, n, before, after, k);
    OriginsNext(snapshot, ops, ids, jds, n, before, after, k);
  }

  lemma MidwaySet(snapshot: Rows, ops: seq<GridOp>, ids: seq<Uuid>, jds: seq<Uuid>, n: nat, before: Rows)
    requires NamesApart(snapshot, ops, ids, jds) && NamesExisting(ops, snapshot) && n < |ops| && ops[n].Set?
    requires Midway(snapshot, ops, ids, jds, n, before) && !Deleted(ops, |ops|, ops[n].uuid)
    ensures Holds(before, ops[n].grid, ops[n].uuid)
    ensures Midway(snapshot, ops, ids, jds, n + 1, before[ops[n].uuid := snapshot[ops[n].uuid]])
  {
    var k := ops[n].uuid;
    var after := before[k := snapshot[k]];
    assert Settled(snapshot, ops, n, before, k);
    SettlesNext(snapshot, ops, n, before, after, k);
    ReaddsNext(snapshot, ops, jds, n, before, after, k);
    StillAddedNext(ops, ids, n, before, after, k);
    OriginsNext(snapshot, ops, ids, jds, n, before, after, k);
  }

  lemma MidwayAdd(snapshot: Rows, ops: seq<GridOp>, ids: seq<Uuid>, jds: seq<Uuid>, n: nat, before: Rows)
    requires NamesApart(snapshot, ops, ids, jds) && NamesExisting(ops, snapshot) && n < |ops| && ops[n].Add?
    requires Midway(snapshot, ops, ids, jds, n, before)
    ensures Holds(before, ops[n].grid, ids[n])
    ensures Midway(snapshot, ops, ids, jds, n + 1, before - {ids[n]})
  {
    var k, after := ids[n], before - {ids[n]};
    SettlesNext(snapshot, ops, n, before, after, k);
    ReaddsNext(snapshot, ops, jds, n, before, after, k);
    StillAddedNext(ops, ids, n, before, after, k);
    OriginsNext(snapshot, ops, ids, jds, n, before, after, k);
  }

  lemma MidwayStep(snapshot: Rows, ops: seq<GridOp>, ids: seq<Uuid>, jds: seq<Uuid>, n: nat, before: Rows)
    requires NamesApart(snapshot, ops, ids, jds) && SafeOps(ops, ids) && Restorable(snapshot, ops) && n < |ops|
    requires Midway(snapshot, ops, ids, jds, n, before)
    ensures ApplyOp(before, Inverse(ops[n], ids[n], snapshot), jds[n]).Some?
    ensures Midway(snapshot, ops, ids, jds, n + 1,
                   ApplyOp(before, Inverse(ops[n], ids[n], snapshot), jds[n]).value)
  {
    match ops[n]
    case Del(grid, uuid) =>
      MidwayDel(snapshot, ops, ids, jds, n, before);
      assert Row(grid, snapshot[uuid].item) == snapshot[uuid];
    case Set(grid, uuid, _) =>
      assert !Deleted(ops, |ops|, uuid) by {
        if Deleted(ops, |ops|, uuid) {
          var i :| 0 <= i < |ops| && ops[i].Del? && ops[i].uuid == uuid;
          assert Names(ops[n], ops[i].uuid);
        }
      }
      MidwaySet(snapshot, ops, ids, jds, n, before);
      assert Row(grid, snapshot[uuid].item) == snapshot[uuid];
    case Add(_, _) =>
      MidwayAdd(snapshot, ops, ids, jds, n, before);
  }

  lemma {:induction false} InverseRuns(snapshot: Rows, ops: seq<GridOp>, ids: seq<Uuid>, rows: Rows, jds: seq<Uuid>, n: nat)
    requires Reverting(snapshot, ops, ids, rows, jds) && Restorable(snapshot, ops) && n <= |ops|
    requires NamesApart(snapshot, ops, ids, jds) && SafeOps(ops, ids)
    ensures ApplyTo(rows, Inverses(ops, ids, snapshot), jds, n).Some?
    ensures Midway(snapshot, ops, ids, jds, n, ApplyTo(rows, Inverses(ops, ids, snapshot), jds, n).value)
    decreases n
  {
    if n == 0 {
      MidwayStart(snapshot, ops, ids, rows, jds);
    } else {
      var inv := Inverses(ops, ids, snapshot);
      InverseRuns(snapshot, ops, ids, rows, jds, n - 1);
      var before := ApplyTo(rows, inv, jds, n - 1).value;
      MidwayStep(snapshot, ops, ids, jds, n - 1, before);
      ApplyNext(rows, inv, jds, n - 1, before);
    }
  }

  lemma ApplyNext(rows: Rows, ops: seq<GridOp>, ids: seq<Uuid>, n: nat, before: Rows)
    requires n < |ops| == |ids| && ApplyTo(rows, ops, ids, n) == Some(before)
    ensures ApplyTo(rows, ops, ids, n + 1) == ApplyOp(before, ops[n], ids[n])
  {
  }

  /* Restoration */

  /** The rows of the snapshot that the first `n` ops do not delete. */
  ghost predicate KeepsRest(snapshot: Rows, ops: seq<GridOp>, n: nat, r: Rows)
    requires n <= |ops|
  {
    forall u :: u in snapshot ==> (u in r <==> !Deleted(ops, n, u)) && (u in r ==> r[u] == snapshot[u])
  }

  ghost predicate NothingElse(snapshot: Rows, ops: seq<GridOp>, jds: seq<Uuid>, n: nat, r: Rows)
    requires n <= |ops| == |jds|
  {
    forall u :: u in r ==> u in snapshot || u in Readded(ops, jds, n)
  }

  /** The snapshot with each row deleted by the first `n` ops under the uuid it is re-added with. */
  ghost predicate Rekeyed(snapshot: Rows, ops: seq<GridOp>, jds: seq<Uuid>, n: nat, r: Rows)
    requires n <= |ops| == |jds| && NamesExisting(ops, snapshot)
  {
    KeepsRest(snapshot, ops, n, r) && Readds(snapshot, ops, jds, n, r) && NothingElse(snapshot, ops, jds, n, r)
  }

  lemma {:induction false} Rekey(snapshot: Rows, ops: seq<GridOp>, jds: seq<Uuid>, n: nat) returns (r: Rows)
    requires n <= |ops| == |jds| && Restorable(snapshot, ops) && FreshIds(snapshot.Keys, jds)
    ensures Rekeyed(snapshot, ops, jds, n, r) && Contents(r) == Contents(snapshot)
    decreases n
  {
    if n == 0 {
      r := snapshot;
    } else {
      var before := Rekey(snapshot, ops, jds, n - 1);
      if ops[n - 1].Del? {
        RekeyDel(snapshot, ops, jds, n, before);
        ContentsRekey(before, ops[n - 1].uuid, jds[n - 1]);
        r := (before - {ops[n - 1].uuid})[jds[n - 1] := before[ops[n - 1].uuid]];
      } else {
        r := before;
        RekeyOther(snapshot, ops, jds, n, before);
      }
    }
  }

  lemma RekeyOther(snapshot: Rows, ops: seq<GridOp>, jds: seq<Uuid>, n: nat, before: Rows)
    requires 0 < n <= |ops| == |jds| && NamesExisting(ops, snapshot)
    requires Rekeyed(snapshot, ops, jds, n - 1, before) && !ops[n - 1].Del?
    ensures Rekeyed(snapshot, ops, jds, n, before)
  {
    assert KeepsRest(snapshot, ops, n, before) by {
      forall u | u in snapshot ensures (u in before <==> !Deleted(ops, n, u)) && (u in before ==> before[u] == snapshot[u]) {
        DeletedNext(ops, n, u);
      }
    }
    assert NothingElse(snapshot, ops, jds, n, before);
  }

  lemma RekeyDel(snapshot: Rows, ops: seq<GridOp>, jds: seq<Uuid>, n: nat, before: Rows)
    requires 0 < n <= |ops| == |jds| && Restorable(snapshot, ops) && FreshIds(snapshot.Keys, jds)
    requires Rekeyed(snapshot, ops, jds, n - 1, before) && ops[n - 1].Del?
    ensures ops[n - 1].uuid in before && jds[n - 1] !in before
    ensures Rekeyed(snapshot, ops, jds, n, (before - {ops[n - 1].uuid})[jds[n - 1] := before[ops[n - 1].uuid]])
  {
    var v, j := ops[n - 1].uuid, jds[n - 1];
    NotYetDeleted(ops, n - 1);
    assert v in snapshot && v in before;
    if j in before {
      var i := ReaddedFrom(ops, jds, n - 1, j);
    }
    var r := (before - {v})[j := before[v]];
    assert KeepsRest(snapshot, ops, n, r) by {
      forall u | u in snapshot ensures (u in r <==> !Deleted(ops, n, u)) && (u in r ==> r[u] == snapshot[u]) {
        DeletedNext(ops, n, u);
      }
    }
    assert Readds(snapshot, ops, jds, n, r);
    assert NothingElse(snapshot, ops, jds, n, r);
  }

  lemma DeletedNext(ops: seq<GridOp>, n: nat, u: Uuid)
    requires 0 < n <= |ops|
    ensures Deleted(ops, n, u) <==> Deleted(ops, n - 1, u) || (ops[n - 1].Del? && ops[n - 1].uuid == u)
  {
  }

  lemma NotYetDeleted(ops: seq<GridOp>, n: nat)
    requires n < |ops| && DeletesAlone(ops) && ops[n].Del?
    ensures !Deleted(ops, n, ops[n].uuid)
  {
  }

  ghost predicate Restored(snapshot: Rows, ops: seq<GridOp>, rows: Rows) {
    && Contents(rows) == Contents(snapshot)
    && forall u :: u in snapshot && !Deleted(ops, |ops|, u) ==> u in rows && rows[u] == snapshot[u]
  }

  lemma MidwayEnd(snapshot: Rows, ops: seq<GridOp>, ids: seq<Uuid>, jds: seq<Uuid>, after: Rows, r: Rows)
    requires NamesApart(snapshot, ops, ids, jds) && NamesExisting(ops, snapshot)
    requires Midway(snapshot, ops, ids, jds, |ops|, after) && Rekeyed(snapshot, ops, jds, |ops|, r)
    ensures after == r
    ensures forall u :: u in snapshot && !Deleted(ops, |ops|, u) ==> u in after && after[u] == snapshot[u]
  {
    forall u | u in after ensures u in r && r[u] == after[u] {
      assert Origin(snapshot, ops, ids, jds, |ops|, u);
      if u in Readded(ops, jds, |ops|) {
        var i := ReaddedFrom(ops, jds, |ops|, u);
      } else {
        assert Settled(snapshot, ops, |ops|, after, u);
      }
    }
    forall u | u in r ensures u in after {
      if u in snapshot {
        assert Settled(snapshot, ops, |ops|, after, u);
      } else {
        var i := ReaddedFrom(ops, jds, |ops|, u);
      }
    }
  }

  lemma InverseRestores(snapshot: Rows, ops: seq<GridOp>, ids: seq<Uuid>, rows: Rows, jds: seq<Uuid>)
    requires Reverting(snapshot, ops, ids, rows, jds) && Restorable(snapshot, ops)
    ensures ApplyOps(rows, Inverses(ops, ids, snapshot), jds).Some?
    ensures Restored(snapshot, ops, ApplyOps(rows, Inverses(ops, ids, snapshot), jds).value)
  {
    RevertingNames(snapshot, ops, ids, rows, jds);
    InverseRuns(snapshot, ops, ids, rows, jds, |ops|);
    var r := Rekey(snapshot, ops, jds, |ops|);
    MidwayEnd(snapshot, ops, ids, jds, ApplyOps(rows, Inverses(ops, ids, snapshot), jds).value, r);
  }

  /* Restoration needs that condition */

  function Adds(ops: seq<GridOp>, n: nat): nat
    requires n <= |ops|
  {
    if n == 0 then 0 else Adds(ops, n - 1) + if ops[n - 1].Add? then 1 else 0
  }

  function Dels(ops: seq<GridOp>, n: nat): nat
    requires n <= |ops|
  {
    if n == 0 then 0 else Dels(ops, n - 1) + if ops[n - 1].Del? then 1 else 0
  }

  /** Op `i` deletes a row that is there. */
  ghost predicate Effective(snapshot: Rows, ops: seq<GridOp>, ids: seq<Uuid>, i: nat)
    requires i < |ops| == |ids| && ops[i].Del?
  {
    ApplyTo(snapshot, ops, ids, i).Some?
    && Holds(ApplyTo(snapshot, ops, ids, i).value, ops[i].grid, ops[i].uuid)
  }

  ghost function Wasted(snapshot: Rows, ops: seq<GridOp>, ids: seq<Uuid>, n: nat): nat
    requires n <= |ops| == |ids|
  {
    if n == 0 then 0
    else
      Wasted(snapshot, ops, ids, n - 1)
      + if ops[n - 1].Del? && !Effective(snapshot, ops, ids, n - 1) then 1 else 0
  }

  lemma {:induction false} NothingWasted(snapshot: Rows, ops: seq<GridOp>, ids: seq<Uuid>, n: nat, i: nat)
    requires i < n <= |ops| == |ids| && ops[i].Del? && Wasted(snapshot, ops, ids, n) == 0
    ensures Effective(snapshot, ops, ids, i)
    decreases n
  {
    if i < n - 1 {
      NothingWasted(snapshot, ops, ids, n - 1, i);
    }
  }

  lemma OpSize(before: Rows, op: GridOp, id: Uuid)
    requires ApplyOp(before, op, id).Some? && (op.Add? ==> id !in before)
    ensures |ApplyOp(before, op, id).value.Keys| ==
            |before.Keys| + (if op.Add? then 1 else 0)
            - (if op.Del? && Holds(before, op.grid, op.uuid) then 1 else 0)
  {
    var after := ApplyOp(before, op, id).value;
    match op
    case Add(_, _) => assert after.Keys == before.Keys + {id};
    case Set(_, uuid, _) => assert after.Keys == before.Keys;
    case Del(grid, uuid) => if Holds(before, grid, uuid) { RemoveSize(before, uuid); }
    case Other(_, _) =>
  }

  lemma {:induction false} ForwardSize(snapshot: Rows, ops: seq<GridOp>, ids: seq<Uuid>, n: nat)
    requires n <= |ops| == |ids| && FreshIds(snapshot.Keys, ids) && ApplyTo(snapshot, ops, ids, n).Some?
    ensures |ApplyTo(snapshot, ops, ids, n).value.Keys|
            == |snapshot.Keys| + Adds(ops, n) - Dels(ops, n) + Wasted(snapshot, ops, ids, n)
    decreases n
  {
    if n > 0 {
      ForwardSize(snapshot, ops, ids, n - 1);
      var before := ApplyTo(snapshot, ops, ids, n - 1).value;
      if ids[n - 1] in before {
        var i := ForwardNew(snapshot, ops, ids, n - 1, ids[n - 1]);
      }
      OpSize(before, ops[n - 1], ids[n - 1]);
    }
  }

  /** The rows an inverse run can meet: those it started from and those it adds. */
  lemma {:induction false} InverseNew(rows: Rows, inv: seq<GridOp>, jds: seq<Uuid>, n: nat, u: Uuid) returns (i: nat)
    requires n <= |inv| == |jds| && ApplyTo(rows, inv, jds, n).Some?
    requires u in ApplyTo(rows, inv, jds, n).value && u !in rows
    ensures i < n && jds[i] == u
    decreases n
  {
    if inv[n - 1].Add? && jds[n - 1] == u {
      i := n - 1;
    } else {
      i := InverseNew(rows, inv, jds, n - 1, u);
    }
  }

  /** A row the payload added is there until its own inverse removes it. */
  lemma {:induction false} InverseMeetsAdded(snapshot: Rows, ops: seq<GridOp>, ids: seq<Uuid>, rows: Rows, jds: seq<Uuid>, n: nat, i: nat)
    requires Reverting(snapshot, ops, ids, rows, jds) && AllInvertible(ops, |ops|, snapshot)
    requires n <= i < |ops| && ops[i].Add?
    requires ApplyTo(rows, Inverses(ops, ids, snapshot), jds, n).Some?
    ensures Holds(ApplyTo(rows, Inverses(ops, ids, snapshot), jds, n).value, ops[i].grid, ids[i])
    decreases n
  {
    ForwardAdded(snapshot, ops, ids, |ops|, i);
    if n > 0 {
      InverseMeetsAdded(snapshot, ops, ids, rows, jds, n - 1, i);
      assert jds[n - 1] != ids[i] && ids[n - 1] != ids[i] && ids[i] !in snapshot;
    }
  }

  lemma InverseOpSize(before: Rows, op: GridOp, id: Uuid, jd: Uuid, snapshot: Rows)
    requires !op.Other? && jd !in before && (op.Add? ==> Holds(before, op.grid, id))
    requires ApplyOp(before, Inverse(op, id, snapshot), jd).Some?
    ensures |ApplyOp(before, Inverse(op, id, snapshot), jd).value.Keys|
            == |before.Keys| + (if op.Del? then 1 else 0) - (if op.Add? then 1 else 0)
  {
    OpSize(before, Inverse(op, id, snapshot), jd);
  }

  /** Inverse op `n` finds the row it removes and gets a uuid that is free. */
  ghost predicate Ready(snapshot: Rows, ops: seq<GridOp>, ids: seq<Uuid>, rows: Rows, jds: seq<Uuid>, n: nat)
    requires n < |ops| == |ids| == |jds|
  {
    var now := ApplyTo(rows, Inverses(ops, ids, snapshot), jds, n);
    !ops[n].Other? && now.Some? && jds[n] !in now.value
    && (ops[n].Add? ==> Holds(now.value, ops[n].grid, ids[n]))
  }

  lemma ReadyToInvert(snapshot: Rows, ops: seq<GridOp>, ids: seq<Uuid>, rows: Rows, jds: seq<Uuid>, n: nat)
    requires Reverting(snapshot, ops, ids, rows, jds) && AllInvertible(ops, |ops|, snapshot)
    requires n < |ops| && ApplyOps(rows, Inverses(ops, ids, snapshot), jds).Some?
    ensures Ready(snapshot, ops, ids, rows, jds, n)
  {
    PrefixApplied(rows, Inverses(ops, ids, snapshot), jds, |ops|, n);
    AppliedOps(snapshot, ops, ids, |ops|, n);
    if ops[n].Add? {
      InverseMeetsAdded(snapshot, ops, ids, rows, jds, n, n);
    }
    if jds[n] in ApplyTo(rows, Inverses(ops, ids, snapshot), jds, n).value {
      var i := InverseNew(rows, Inverses(ops, ids, snapshot), jds, n, jds[n]);
    }
  }

  lemma {:induction false} InverseSize(snapshot: Rows, ops: seq<GridOp>, ids: seq<Uuid>, rows: Rows, jds: seq<Uuid>, n: nat)
    requires n <= |ops| == |ids| == |jds|
    requires forall i :: 0 <= i < |ops| ==> Ready(snapshot, ops, ids, rows, jds, i)
    requires ApplyTo(rows, Inverses(ops, ids, snapshot), jds, n).Some?
    ensures |ApplyTo(rows, Inverses(ops, ids, snapshot), jds, n).value.Keys|
            == |rows.Keys| + Dels(ops, n) - Adds(ops, n)
    decreases n
  {
    if n > 0 {
      InverseSize(snapshot, ops, ids, rows, jds, n - 1);
      assert Ready(snapshot, ops, ids, rows, jds, n - 1);
      InverseOpSize(ApplyTo(rows, Inverses(ops, ids, snapshot), jds, n - 1).value,
                    ops[n - 1], ids[n - 1], jds[n - 1], snapshot);
    }
  }

  /** Writing never moves a row of the snapshot to another grid. */
  lemma {:induction false} ForwardGrid(snapshot: Rows, ops: seq<GridOp>, ids: seq<Uuid>, n: nat, u: Uuid)
    requires n <= |ops| == |ids| && FreshIds(snapshot.Keys, ids) && ApplyTo(snapshot, ops, ids, n).Some?
    requires u in snapshot && u in ApplyTo(snapshot, ops, ids, n).value
    ensures ApplyTo(snapshot, ops, ids, n).value[u].grid == snapshot[u].grid
    decreases n
  {
    if n > 0 {
      assert ids[n - 1] != u;
      ForwardGrid(snapshot, ops, ids, n - 1, u);
    }
  }

  lemma {:induction false} PrefixApplied(rows: Rows, ops: seq<GridOp>, ids: seq<Uuid>, n: nat, m: nat)
    requires m <= n <= |ops| == |ids| && ApplyTo(rows, ops, ids, n).Some?
    ensures ApplyTo(rows, ops, ids, m).Some?
    decreases n
  {
    if m < n {
      PrefixApplied(rows, ops, ids, n - 1, m);
    }
  }

  lemma NamesExistingNeeded(snapshot: Rows, ops: seq<GridOp>, ids: seq<Uuid>)
    requires Applied(snapshot, ops, ids) && AllInvertible(ops, |ops|, snapshot)
    requires Wasted(snapshot, ops, ids, |ops|) == 0
    ensures NamesExisting(ops, snapshot)
  {
    forall i | 0 <= i < |ops| && (ops[i].Set? || ops[i].Del?) ensures Holds(snapshot, ops[i].grid, ops[i].uuid) {
      assert CanInvert(ops[i], snapshot);
      PrefixApplied(snapshot, ops, ids, |ops|, i + 1);
      if ops[i].Del? {
        NothingWasted(snapshot, ops, ids, |ops|, i);
      }
      ForwardGrid(snapshot, ops, ids, i, ops[i].uuid);
    }
  }

  lemma DelTwice(snapshot: Rows, ops: seq<GridOp>, ids: seq<Uuid>, i: nat, j: nat)
    requires Applied(snapshot, ops, ids) && NamesExisting(ops, snapshot)
    requires Wasted(snapshot, ops, ids, |ops|) == 0
    requires i < j < |ops| && ops[i].Del? && ops[j].Del?
    ensures ops[i].uuid != ops[j].uuid
  {
    PrefixApplied(snapshot, ops, ids, |ops|, j);
    NothingWasted(snapshot, ops, ids, |ops|, j);
    ForwardKnown(snapshot, ops, ids, j, ops[j].uuid);
  }

  /** An accepted set finds its row. */
  lemma SetFinds(rows: Rows, ops: seq<GridOp>, ids: seq<Uuid>, n: nat)
    requires n < |ops| == |ids| && ApplyOps(rows, ops, ids).Some? && ops[n].Set?
    ensures ApplyTo(rows, ops, ids, n).Some? && ops[n].uuid in ApplyTo(rows, ops, ids, n).value
  {
    PrefixApplied(rows, ops, ids, |ops|, n + 1);
  }

  lemma SetAndDel(snapshot: Rows, ops: seq<GridOp>, ids: seq<Uuid>, rows: Rows, jds: seq<Uuid>, i: nat, j: nat)
    requires Reverting(snapshot, ops, ids, rows, jds) && NamesExisting(ops, snapshot)
    requires ApplyOps(rows, Inverses(ops, ids, snapshot), jds).Some?
    requires i < |ops| && j < |ops| && ops[i].Del? && ops[j].Set?
    ensures ops[i].uuid != ops[j].uuid
  {
    var inv, u := Inverses(ops, ids, snapshot), ops[j].uuid;
    assert inv[j] == Inverse(ops[j], ids[j], snapshot);
    SetFinds(rows, inv, jds, j);
    if ops[i].uuid == u {
      ForwardKnown(snapshot, ops, ids, |ops|, u);
      var k := InverseNew(rows, inv, jds, j, u);
    }
  }

  /** A revert of an applied change: the inverse is built from the recorded results and the
      snapshot, it is accepted by the device, and the device holds the snapshot's rows again. */
  ghost predicate RevertWorks(snapshot: Rows, ops: seq<GridOp>, ids: seq<Uuid>, rows: Rows, jds: seq<Uuid>)
    requires |ids| == |ops| == |jds|
  {
    var inv := InvertOps(ops, LiveResults(ops, ids), snapshot);
    && inv.Some? && |inv.value| == |ops|
    && ApplyOps(rows, inv.value, jds).Some?
    && Restored(snapshot, ops, ApplyOps(rows, inv.value, jds).value)
  }

  /** Reverting the grid ops of a fully applied live change, in payload order and unreversed, gives
      back every row (the re-added ones under new uuids, the others under their own) exactly when
      every `set` and `del` names a row its grid had, and no row is both deleted and named by another
      op. */
  lemma GridRevertExactlyWhen(snapshot: Rows, ops: seq<GridOp>, ids: seq<Uuid>, rows: Rows, jds: seq<Uuid>)
    requires Reverting(snapshot, ops, ids, rows, jds)
    ensures RevertWorks(snapshot, ops, ids, rows, jds) <==> Restorable(snapshot, ops)
  {
    var results, inv := LiveResults(ops, ids), Inverses(ops, ids, snapshot);
    forall i | 0 <= i < |ops| ensures !ops[i].Other? && ids[i] != "" {
      AppliedOps(snapshot, ops, ids, |ops|, i);
    }
    LiveInverse(ops, ids, results, snapshot, |ops|);
    assert inv[..|ops|] == inv;
    if Restorable(snapshot, ops) {
      assert AllInvertible(ops, |ops|, snapshot);
      InverseRestores(snapshot, ops, ids, rows, jds);
    }
    if RevertWorks(snapshot, ops, ids, rows, jds) {
      var final := ApplyOps(rows, inv, jds).value;
      ContentsSize(final);
      ContentsSize(snapshot);
      ForwardSize(snapshot, ops, ids, |ops|);
      forall i | 0 <= i < |ops| ensures Ready(snapshot, ops, ids, rows, jds, i) {
        ReadyToInvert(snapshot, ops, ids, rows, jds, i);
      }
      InverseSize(snapshot, ops, ids, rows, jds, |ops|);
      NamesExistingNeeded(snapshot, ops, ids);
      forall i, j | 0 <= i < |ops| && 0 <= j < |ops| && i != j && ops[i].Del?
        ensures !Names(ops[j], ops[i].uuid)
      {
        if ops[j].Set? {
          SetAndDel(snapshot, ops, ids, rows, jds, i, j);
        } else if ops[j].Del? {
          DelTwice(snapshot, ops, ids, if i < j then i else j, if i < j then j else i);
        }
      }
    }
  }

  /** A payload that sets a row and then deletes it is applied and not undone: its inverse sets the row
      before it is back, and is refused. */
  lemma SetThenDelFails(grid: string, u: Uuid, prior: Fields, item: Fields, ids: seq<Uuid>, jds: seq<Uuid>)
    requires PlainName(u) && |ids| == |jds| == 2 && AllSafe(ids) && FreshIds({u}, ids) && FreshIds({u}, jds)
    ensures var snapshot, ops := map[u := Row(grid, prior)], [Set(grid, u, item), Del(grid, u)];
            ApplyOps(snapshot, ops, ids) == Some(map[]) && !RevertWorks(snapshot, ops, ids, map[], jds)
  {
    var snapshot: Rows, ops := map[u := Row(grid, prior)], [Set(grid, u, item), Del(grid, u)];
    var none: Rows := map[];
    SetThenDelApplies(snapshot, grid, u, item, ops, ids);
    assert snapshot - {u} == none && snapshot.Keys == {u};
    assert Names(ops[0], ops[1].uuid);
    GridRevertExactlyWhen(snapshot, ops, ids, none, jds);
  }

  lemma SetThenDelApplies(rows: Rows, grid: string, u: Uuid, item: Fields, ops: seq<GridOp>, ids: seq<Uuid>)
    requires PlainName(u) && Holds(rows, grid, u) && ops == [Set(grid, u, item), Del(grid, u)] && |ids| == |ops|
    ensures ApplyOps(rows, ops, ids) == Some(rows - {u})
  {
    var n := |ops|;
    assert ApplyTo(rows, ops, ids, n - 2) == Some(rows);
    assert ApplyTo(rows, ops, ids, n - 1) == Some(rows[u := Row(grid, item)]);
    assert rows[u := Row(grid, item)] - {u} == rows - {u};
  }
}

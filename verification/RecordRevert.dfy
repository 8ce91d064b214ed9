/** Records that the client upserts by identity (firewall rules, Monit tests) and their reverts. */
module RecordRevert {
  import opened Strings
  import opened DeviceStore

  /** How a kind of change addresses its record. `main` is the identity field that the change's target
      may carry; `directives` are payload keys that are stripped before the record is sent. */
  datatype Kind = Kind(table: string, main: string, others: set<string>, directives: set<string>)

  const FIREWALL_RULE := Kind("rule", "description", {"interface"}, {})
  const MONIT_TEST := Kind("test", "name", {}, {"attach_to_system"})

  predicate Sensible(kind: Kind) {
    kind.main !in kind.others && kind.main !in kind.directives && kind.others !! kind.directives
  }

  function Field(item: Fields, key: string): string {
    if key in item then item[key] else ""
  }

  /** The identity a payload carries; a non-empty target takes the place of the main field. */
  function Identity(kind: Kind, target: string, payload: Fields): Fields {
    map k | k in {kind.main} + kind.others ::
      if k == kind.main && target != "" then target else Field(payload, k)
  }

  predicate Matches(row: Row, table: string, identity: Fields) {
    row.grid == table && forall k :: k in identity ==> Field(row.item, k) == identity[k]
  }

  function Found(rows: Rows, table: string, identity: Fields): set<Uuid> {
    set u | u in rows && Matches(rows[u], table, identity)
  }

  /* Applying */

  /** Delete or upsert by identity. An empty or ambiguous identity is refused (None); deleting an
      absent record is a no-op. `id` is the uuid the device hands out for a new record. */
  function ApplyRecord(rows: Rows, kind: Kind, operation: string, payload: Fields, id: Uuid): Option<Rows> {
    var identity := Identity(kind, "", payload);
    var found := Found(rows, kind.table, identity);
    if identity[kind.main] == "" || |found| > 1 then None
    else if operation == "delete" then Some(rows - found)
    else
      var row := Row(kind.table, payload - kind.directives);
      if found == {} then Some(rows[id := row])
      else Some(map u | u in rows :: if u in found then row else rows[u])
  }

  /** A change is refused exactly when its payload lacks the main identity field or two records carry its
      identity. */
  lemma RefusedExactlyWhen(rows: Rows, kind: Kind, operation: string, payload: Fields, id: Uuid)
    ensures ApplyRecord(rows, kind, operation, payload, id).None?
       <==> Field(payload, kind.main) == ""
            || exists u, v :: u in rows && v in rows && u != v
                              && Is(rows[u], kind, Field(payload, kind.main), payload)
                              && Is(rows[v], kind, Field(payload, kind.main), payload)
  {
    var found := Found(rows, kind.table, Identity(kind, "", payload));
    forall u | u in rows ensures u in found <==> Is(rows[u], kind, Field(payload, kind.main), payload) {
      IsMatch(rows[u], kind, "", payload);
    }
    if |found| > 1 {
      var u :| u in found;
      assert |found - {u}| > 0;
      var v :| v in found - {u};
      assert u in rows && v in rows;
    }
    forall u, v | u in found && v in found && u != v ensures |found| > 1 {
      assert {u, v} <= found;
      assert |found - {u, v}| == |found| - 2;
    }
  }

  /* Inverting */

  datatype Inverse = Inverse(operation: string, target: string, payload: Fields)

  /** The first record of the snapshot that matches (in some document order). */
  ghost function Prior(rows: Rows, table: string, identity: Fields): (r: Option<Fields>)
    ensures r.None? <==> Found(rows, table, identity) == {}
    ensures r.Some? ==> exists u :: u in Found(rows, table, identity) && r.value == rows[u].item
  {
    if Found(rows, table, identity) == {} then None
    else
      var u :| u in Found(rows, table, identity);
      Some(rows[u].item)
  }

  ghost function InvertRecord(kind: Kind, operation: string, target: string, payload: Fields, snapshot: Option<Rows>)
    : Option<Inverse>
  {
    var identity := Identity(kind, target, payload);
    if operation == "add" then Some(Inverse("delete", identity[kind.main], identity))
    else if snapshot.None? then None
    else
      match Prior(snapshot.value, kind.table, identity)
      case None => Some(Inverse("delete", identity[kind.main], identity))
      case Some(item) => Some(Inverse("set", identity[kind.main], item))
  }

  /** A revert is refused exactly when it is no "add" and there is no snapshot. Otherwise it names the
      recorded target or else the payload's main field, and deletes that record exactly if it is an "add" or
      the snapshot has no such record; else it sets it to a record of the snapshot. */
  lemma InverseMeaning(kind: Kind, operation: string, target: string, payload: Fields, snapshot: Option<Rows>)
    ensures var named := if target != "" then target else if kind.main in payload then payload[kind.main] else "";
            match InvertRecord(kind, operation, target, payload, snapshot)
            case None => operation != "add" && snapshot.None?
            case Some(inverse) =>
              && (operation == "add" || snapshot.Some?) && inverse.target == named
              && (if operation == "add" || forall u :: u in snapshot.value ==> !Is(snapshot.value[u], kind, named, payload)
                  then inverse.operation == "delete" && Names(inverse.payload, kind, named, payload)
                  else inverse.operation == "set"
                       && exists u :: u in snapshot.value && Is(snapshot.value[u], kind, named, payload)
                                      && inverse.payload == snapshot.value[u].item)
  {
    var named := if target != "" then target else Field(payload, kind.main);
    var identity := Identity(kind, target, payload);
    if operation != "add" && snapshot.Some? {
      forall u | u in snapshot.value
        ensures Matches(snapshot.value[u], kind.table, identity) <==> Is(snapshot.value[u], kind, named, payload)
      {
        IsMatch(snapshot.value[u], kind, target, payload);
      }
      assert Found(snapshot.value, kind.table, identity) == {}
        <==> forall u :: u in snapshot.value ==> u !in Found(snapshot.value, kind.table, identity);
    }
  }

  /** `item` carries `named` as main field and the payload's other identity fields. */
  ghost predicate Names(item: Fields, kind: Kind, named: string, payload: Fields) {
    Field(item, kind.main) == named && forall k :: k in kind.others && k != kind.main ==> Field(item, k) == Field(payload, k)
  }

  ghost predicate Is(row: Row, kind: Kind, named: string, payload: Fields) {
    row.grid == kind.table && Names(row.item, kind, named, payload)
  }

  lemma IsMatch(row: Row, kind: Kind, target: string, payload: Fields)
    ensures var named := if target != "" then target else Field(payload, kind.main);
            Matches(row, kind.table, Identity(kind, target, payload)) <==> Is(row, kind, named, payload)
  {
    var identity := Identity(kind, target, payload);
    assert kind.main in identity && forall k :: k in kind.others ==> k in identity;
  }

  /* The revert restores the record */

  lemma IdentityOfMatch(kind: Kind, target: string, payload: Fields, item: Fields)
    requires forall k :: k in Identity(kind, target, payload) ==> Field(item, k) == Identity(kind, target, payload)[k]
    ensures Identity(kind, "", item) == Identity(kind, target, payload)
  {
  }

  lemma IdentityOfIdentity(kind: Kind, payload: Fields)
    ensures Identity(kind, "", Identity(kind, "", payload)) == Identity(kind, "", payload)
  {
    IdentityOfMatch(kind, "", payload, Identity(kind, "", payload));
  }

  /** What one record contributes: the rows other than the record stay as they are. */
  lemma OneFound(found: set<Uuid>) returns (u: Uuid)
    requires |found| <= 1 && found != {}
    ensures found == {u}
  {
    u :| u in found;
    assert |found - {u}| == 0;
  }

  /** The change's target, when recorded, is the identity the payload carries. */
  predicate TargetAgrees(kind: Kind, target: string, payload: Fields) {
    target == "" || target == Field(payload, kind.main)
  }

  lemma TargetIdentity(kind: Kind, target: string, payload: Fields)
    requires TargetAgrees(kind, target, payload)
    ensures Identity(kind, target, payload) == Identity(kind, "", payload)
  {
  }

  /** A record that was created is deleted again. */
  lemma RevertOfCreation(before: Rows, kind: Kind, operation: string, payload: Fields, id: Uuid, jd: Uuid)
    requires Sensible(kind) && operation != "delete" && id !in before
    requires Identity(kind, "", payload)[kind.main] != ""
    requires Found(before, kind.table, Identity(kind, "", payload)) == {}
    ensures var after := ApplyRecord(before, kind, operation, payload, id);
            after.Some?
            && ApplyRecord(after.value, kind, "delete", Identity(kind, "", payload), jd) == Some(before)
  {
    var identity := Identity(kind, "", payload);
    var row := Row(kind.table, payload - kind.directives);
    var after := before[id := row];
    IdentityOfIdentity(kind, payload);
    assert Matches(row, kind.table, identity);
    forall u ensures u in Found(after, kind.table, identity) <==> u == id {
      if u in before && u != id {
        assert u !in Found(before, kind.table, identity);
      }
    }
    assert Found(after, kind.table, identity) == {id};
    assert after - {id} == before;
  }

  /** A record that was overwritten is overwritten with its prior fields. */
  lemma RevertOfUpdate(before: Rows, kind: Kind, operation: string, payload: Fields, id: Uuid, u: Uuid, jd: Uuid)
    requires Sensible(kind) && operation != "delete"
    requires Identity(kind, "", payload)[kind.main] != ""
    requires Found(before, kind.table, Identity(kind, "", payload)) == {u}
    requires before[u].item.Keys !! kind.directives
    ensures var after := ApplyRecord(before, kind, operation, payload, id);
            after.Some?
            && ApplyRecord(after.value, kind, "set", before[u].item, jd) == Some(before)
  {
    var identity := Identity(kind, "", payload);
    var row := Row(kind.table, payload - kind.directives);
    assert u in Found(before, kind.table, identity);
    IdentityOfMatch(kind, "", payload, before[u].item);
    var after := ApplyRecord(before, kind, operation, payload, id).value;
    assert after == before[u := row];
    assert Matches(row, kind.table, identity);
    forall v ensures v in Found(after, kind.table, identity) <==> v == u {
      if v in before && v != u {
        assert v !in Found(before, kind.table, identity);
      }
    }
    assert Found(after, kind.table, identity) == {u};
    assert before[u].item - kind.directives == before[u].item;
    assert before[u] == Row(kind.table, before[u].item);
    var final := ApplyRecord(after, kind, "set", before[u].item, jd).value;
    assert final == before;
  }

  /** A record that was deleted is added again, under a new uuid. */
  lemma RevertOfDeletion(before: Rows, kind: Kind, payload: Fields, id: Uuid, u: Uuid, jd: Uuid)
    requires Sensible(kind)
    requires Identity(kind, "", payload)[kind.main] != ""
    requires Found(before, kind.table, Identity(kind, "", payload)) == {u}
    requires before[u].item.Keys !! kind.directives && jd !in before
    ensures ApplyRecord(before, kind, "delete", payload, id) == Some(before - {u})
    ensures ApplyRecord(before - {u}, kind, "set", before[u].item, jd) == Some((before - {u})[jd := before[u]])
  {
    var identity := Identity(kind, "", payload);
    assert u in Found(before, kind.table, identity);
    IdentityOfMatch(kind, "", payload, before[u].item);
    var after := before - {u};
    forall v ensures v !in Found(after, kind.table, identity) {
      if v in after {
        assert v !in Found(before, kind.table, identity);
      }
    }
    assert before[u].item - kind.directives == before[u].item;
    assert before[u] == Row(kind.table, before[u].item);
  }

  lemma DeletingAbsent(before: Rows, kind: Kind, payload: Fields, id: Uuid)
    requires Identity(kind, "", payload)[kind.main] != ""
    requires Found(before, kind.table, Identity(kind, "", payload)) == {}
    ensures ApplyRecord(before, kind, "delete", payload, id) == Some(before)
    ensures ApplyRecord(before, kind, "delete", Identity(kind, "", payload), id) == Some(before)
  {
    IdentityOfIdentity(kind, payload);
    assert before - {} == before;
  }

  /** A revert of an applied record change: the inverse is built, from the pre-apply snapshot if one was
      `stored`, accepted, and restores the records. */
  ghost predicate RevertWorks(before: Rows, stored: bool, kind: Kind, operation: string, target: string, payload: Fields,
                              after: Rows, jd: Uuid)
  {
    var inverse := InvertRecord(kind, operation, target, payload, if stored then Some(before) else None);
    && inverse.Some?
    && ApplyRecord(after, kind, inverse.value.operation, inverse.value.payload, jd).Some?
    && Contents(ApplyRecord(after, kind, inverse.value.operation, inverse.value.payload, jd).value) == Contents(before)
  }

  /** Stored records never carry a directive: the client strips it before sending. */
  ghost predicate NoDirectives(rows: Rows, kind: Kind) {
    forall u :: u in rows && rows[u].grid == kind.table ==> rows[u].item.Keys !! kind.directives
  }

  /** Case 1: the target agrees with the payload. */
  lemma AgreeingRevert(before: Rows, kind: Kind, operation: string, target: string, payload: Fields,
                       id: Uuid, after: Rows, jd: Uuid)
    requires Sensible(kind) && TargetAgrees(kind, target, payload)
    requires ApplyRecord(before, kind, operation, payload, id) == Some(after)
    requires NoDirectives(before, kind)
    requires id !in before && jd !in before && jd !in after
    ensures RevertWorks(before, true, kind, operation, target, payload, after, jd)
            <==> !(operation == "add" && Found(before, kind.table, Identity(kind, "", payload)) != {})
  {
    var found := Found(before, kind.table, Identity(kind, "", payload));
    if found == {} {
      AgreeingNone(before, kind, operation, target, payload, id, after, jd);
    } else {
      var u := OneFound(found);
      AgreeingOne(before, kind, operation, target, payload, id, after, jd, u);
    }
  }

  lemma AgreeingNone(before: Rows, kind: Kind, operation: string, target: string, payload: Fields,
                     id: Uuid, after: Rows, jd: Uuid)
    requires Sensible(kind) && TargetAgrees(kind, target, payload)
    requires ApplyRecord(before, kind, operation, payload, id) == Some(after) && id !in before
    requires Found(before, kind.table, Identity(kind, "", payload)) == {}
    ensures RevertWorks(before, true, kind, operation, target, payload, after, jd)
  {
    TargetIdentity(kind, target, payload);
    if operation == "delete" {
      DeletingAbsent(before, kind, payload, id);
      DeletingAbsent(before, kind, payload, jd);
    } else {
      RevertOfCreation(before, kind, operation, payload, id, jd);
    }
  }

  lemma AgreeingOne(before: Rows, kind: Kind, operation: string, target: string, payload: Fields,
                    id: Uuid, after: Rows, jd: Uuid, u: Uuid)
    requires Sensible(kind) && TargetAgrees(kind, target, payload)
    requires ApplyRecord(before, kind, operation, payload, id) == Some(after)
    requires NoDirectives(before, kind) && jd !in before
    requires Found(before, kind.table, Identity(kind, "", payload)) == {u}
    ensures RevertWorks(before, true, kind, operation, target, payload, after, jd) <==> operation != "add"
  {
    TargetIdentity(kind, target, payload);
    assert u in Found(before, kind.table, Identity(kind, "", payload));
    InvertsTo(before, kind, operation, target, payload, u);
    if operation == "delete" {
      RevertOfDeletion(before, kind, payload, id, u, jd);
      ContentsRekey(before, u, jd);
    } else if operation == "add" {
      RevertLoses(before, kind, payload, id, u, after, jd);
    } else {
      RevertOfUpdate(before, kind, operation, payload, id, u, jd);
    }
  }

  /** The inverse of a change about a record that is there. */
  lemma InvertsTo(before: Rows, kind: Kind, operation: string, target: string, payload: Fields, u: Uuid)
    requires TargetAgrees(kind, target, payload) && u in before
    requires Found(before, kind.table, Identity(kind, "", payload)) == {u}
    ensures InvertRecord(kind, operation, target, payload, Some(before))
         == Some(if operation == "add"
                 then Inverse("delete", Field(payload, kind.main), Identity(kind, "", payload))
                 else Inverse("set", Field(payload, kind.main), before[u].item))
  {
    TargetIdentity(kind, target, payload);
  }

  lemma RevertLoses(before: Rows, kind: Kind, payload: Fields, id: Uuid, u: Uuid, after: Rows, jd: Uuid)
    requires Sensible(kind) && Identity(kind, "", payload)[kind.main] != ""
    requires Found(before, kind.table, Identity(kind, "", payload)) == {u}
    requires ApplyRecord(before, kind, "add", payload, id) == Some(after)
    ensures ApplyRecord(after, kind, "delete", Identity(kind, "", payload), jd) == Some(before - {u})
    ensures Contents(before - {u}) != Contents(before)
  {
    var identity := Identity(kind, "", payload);
    var row := Row(kind.table, payload - kind.directives);
    assert u in Found(before, kind.table, identity);
    IdentityOfIdentity(kind, payload);
    assert after == before[u := row];
    assert Matches(row, kind.table, identity);
    forall v ensures v in Found(after, kind.table, identity) <==> v == u {
      if v in before && v != u {
        assert v !in Found(before, kind.table, identity);
      }
    }
    assert Found(after, kind.table, identity) == {u};
    assert after - {u} == before - {u};
    ContentsRemove(before, u);
    assert |Contents(before)| == |Contents(before - {u})| + 1;
  }

  /* A target that names another record */

  /** Applying the change would leave every record as it is. */
  predicate ChangesNothing(before: Rows, kind: Kind, operation: string, payload: Fields) {
    var found := Found(before, kind.table, Identity(kind, "", payload));
    if operation == "delete" then found == {}
    else found != {} && forall u :: u in found ==> before[u] == Row(kind.table, payload - kind.directives)
  }

  /** What an applied change does to the store, seen from one of its rows. */
  lemma AppliedShape(before: Rows, kind: Kind, operation: string, payload: Fields, id: Uuid, after: Rows) returns (u: Uuid)
    requires Sensible(kind) && ApplyRecord(before, kind, operation, payload, id) == Some(after) && id !in before
    ensures var row := Row(kind.table, payload - kind.directives);
            && Matches(row, kind.table, Identity(kind, "", payload))
            && (operation == "delete" ==> after == before || (u in before && after == before - {u}))
            && (operation != "delete" ==> after == before[u := row] && (u == id || u in before))
            && (u in before ==> Matches(before[u], kind.table, Identity(kind, "", payload)))
            && (ChangesNothing(before, kind, operation, payload) <==> after == before)
  {
    var found := Found(before, kind.table, Identity(kind, "", payload));
    if found == {} {
      u := id;
      assert before - {} == before;
    } else {
      u := OneFound(found);
      assert u in found;
      if operation == "delete" {
        assert u !in before - {u};
      } else {
        var row := Row(kind.table, payload - kind.directives);
        assert after[u] == row;
        assert after == before[u := row];
      }
    }
  }

  /** Identities with different main fields match different records. */
  lemma MatchesOne(row: Row, kind: Kind, target: string, payload: Fields)
    requires !TargetAgrees(kind, target, payload) && Matches(row, kind.table, Identity(kind, "", payload))
    ensures !Matches(row, kind.table, Identity(kind, target, payload))
  {
    assert kind.main in Identity(kind, "", payload) && kind.main in Identity(kind, target, payload);
  }

  /** The change does not touch the records its target names. */
  lemma TargetUntouched(before: Rows, kind: Kind, operation: string, target: string, payload: Fields, id: Uuid, after: Rows)
    requires Sensible(kind) && !TargetAgrees(kind, target, payload) && id !in before
    requires ApplyRecord(before, kind, operation, payload, id) == Some(after)
    ensures var identity := Identity(kind, target, payload);
            Found(after, kind.table, identity) == Found(before, kind.table, identity)
    ensures forall v :: v in Found(before, kind.table, Identity(kind, target, payload)) ==>
              v in after && v in before && after[v] == before[v]
  {
    var identity := Identity(kind, target, payload);
    var u := AppliedShape(before, kind, operation, payload, id, after);
    var row := Row(kind.table, payload - kind.directives);
    MatchesOne(row, kind, target, payload);
    if u in before {
      MatchesOne(before[u], kind, target, payload);
    }
    forall v ensures v in Found(after, kind.table, identity) <==> v in Found(before, kind.table, identity) {
    }
  }

  /** An applied change gives the same contents exactly when it changed nothing. */
  lemma AppliedContents(before: Rows, kind: Kind, operation: string, payload: Fields, id: Uuid, after: Rows)
    requires Sensible(kind) && ApplyRecord(before, kind, operation, payload, id) == Some(after) && id !in before
    ensures Contents(after) == Contents(before) <==> ChangesNothing(before, kind, operation, payload)
  {
    var u := AppliedShape(before, kind, operation, payload, id, after);
    var row := Row(kind.table, payload - kind.directives);
    if after != before {
      if operation == "delete" {
        ContentsLess(before, u);
      } else if u in before {
        assert before[u := before[u]] == before && before[u := row] == (before - {u})[u := row];
        ContentsOther(before, u, u, row);
      } else {
        ContentsMore(before, u, row);
      }
    }
  }

  /** Taking away another record as well does not make up for the change. */
  lemma AppliedMinusOther(before: Rows, kind: Kind, operation: string, payload: Fields, id: Uuid, after: Rows, v: Uuid)
    requires Sensible(kind) && operation == "add" && id !in before
    requires ApplyRecord(before, kind, operation, payload, id) == Some(after)
    requires v in before && v in after && after[v] == before[v]
    requires !Matches(before[v], kind.table, Identity(kind, "", payload))
    ensures Contents(after - {v}) != Contents(before)
  {
    var u := AppliedShape(before, kind, operation, payload, id, after);
    var row := Row(kind.table, payload - kind.directives);
    ContentsRemove(after, v);
    ContentsRemove(before, v);
    if u in before {
      ContentsSize(after);
      ContentsSize(before);
      assert after.Keys == before.Keys;
      assert |Contents(after - {v})| == |Contents(before)| - 1;
    } else {
      ContentsAdd(before, u, row);
      assert Contents(after)[row] == Contents(before)[row] + 1;
      assert Contents(after - {v})[row] == Contents(before)[row] + 1;
    }
  }

  /** Case 2: the target names another record; the inverse works on that one. */
  lemma StrayRevert(before: Rows, kind: Kind, operation: string, target: string, payload: Fields,
                    id: Uuid, after: Rows, jd: Uuid)
    requires Sensible(kind) && !TargetAgrees(kind, target, payload)
    requires ApplyRecord(before, kind, operation, payload, id) == Some(after)
    requires NoDirectives(before, kind)
    requires id !in before && jd !in before && jd !in after
    ensures var named := Found(before, kind.table, Identity(kind, target, payload));
            RevertWorks(before, true, kind, operation, target, payload, after, jd)
            <==> ChangesNothing(before, kind, operation, payload) && |named| <= 1 && (operation == "add" ==> named == {})
  {
    var named := Found(before, kind.table, Identity(kind, target, payload));
    if named == {} {
      StrayRevertNone(before, kind, operation, target, payload, id, after, jd);
    } else if |named| == 1 {
      var v := OneFound(named);
      if operation == "add" {
        StrayRevertAdd(before, kind, target, payload, id, after, jd, v);
      } else {
        StrayRevertOne(before, kind, operation, target, payload, id, after, jd, v);
      }
    } else {
      TargetUntouched(before, kind, operation, target, payload, id, after);
      StrayRevertMany(before, kind, operation, target, payload, after, jd);
    }
  }

  lemma StrayRevertNone(before: Rows, kind: Kind, operation: string, target: string, payload: Fields,
                        id: Uuid, after: Rows, jd: Uuid)
    requires Sensible(kind) && !TargetAgrees(kind, target, payload)
    requires ApplyRecord(before, kind, operation, payload, id) == Some(after) && id !in before
    requires Found(before, kind.table, Identity(kind, target, payload)) == {}
    ensures RevertWorks(before, true, kind, operation, target, payload, after, jd)
            <==> ChangesNothing(before, kind, operation, payload)
  {
    var identity := Identity(kind, target, payload);
    TargetUntouched(before, kind, operation, target, payload, id, after);
    AppliedContents(before, kind, operation, payload, id, after);
    IdentityOfMatch(kind, target, payload, identity);
    DeletingAbsent(after, kind, identity, jd);
  }

  /** The inverse of the "add" deletes the record the target names. */
  lemma StrayRevertAdd(before: Rows, kind: Kind, target: string, payload: Fields, id: Uuid, after: Rows, jd: Uuid, v: Uuid)
    requires Sensible(kind) && !TargetAgrees(kind, target, payload)
    requires ApplyRecord(before, kind, "add", payload, id) == Some(after) && id !in before
    requires Found(before, kind.table, Identity(kind, target, payload)) == {v}
    ensures v in before && ApplyRecord(after, kind, "delete", Identity(kind, target, payload), jd) == Some(after - {v})
    ensures !RevertWorks(before, true, kind, "add", target, payload, after, jd)
  {
    var identity := Identity(kind, target, payload);
    TargetUntouched(before, kind, "add", target, payload, id, after);
    assert v in Found(before, kind.table, identity);
    IdentityOfMatch(kind, target, payload, identity);
    if Matches(before[v], kind.table, Identity(kind, "", payload)) {
      MatchesOne(before[v], kind, target, payload);
    }
    AppliedMinusOther(before, kind, "add", payload, id, after, v);
  }

  /** The inverse of any other change writes back what the target's record holds anyway. */
  lemma StrayRevertOne(before: Rows, kind: Kind, operation: string, target: string, payload: Fields,
                       id: Uuid, after: Rows, jd: Uuid, v: Uuid)
    requires Sensible(kind) && !TargetAgrees(kind, target, payload) && operation != "add"
    requires ApplyRecord(before, kind, operation, payload, id) == Some(after)
    requires NoDirectives(before, kind) && id !in before
    requires Found(before, kind.table, Identity(kind, target, payload)) == {v}
    ensures RevertWorks(before, true, kind, operation, target, payload, after, jd)
            <==> ChangesNothing(before, kind, operation, payload)
  {
    var identity := Identity(kind, target, payload);
    TargetUntouched(before, kind, operation, target, payload, id, after);
    assert v in Found(before, kind.table, identity);
    IdentityOfMatch(kind, target, payload, before[v].item);
    WritesBack(after, kind, v, jd);
    AppliedContents(before, kind, operation, payload, id, after);
  }

  lemma WritesBack(rows: Rows, kind: Kind, v: Uuid, jd: Uuid)
    requires v in rows && rows[v].grid == kind.table && rows[v].item.Keys !! kind.directives
    requires Field(rows[v].item, kind.main) != "" && Found(rows, kind.table, Identity(kind, "", rows[v].item)) == {v}
    ensures ApplyRecord(rows, kind, "set", rows[v].item, jd) == Some(rows)
  {
    var item := rows[v].item;
    assert item - kind.directives == item;
    assert rows[v] == Row(kind.table, item);
    assert ApplyRecord(rows, kind, "set", item, jd).value == rows;
  }

  lemma StrayRevertMany(before: Rows, kind: Kind, operation: string, target: string, payload: Fields, after: Rows, jd: Uuid)
    requires Found(after, kind.table, Identity(kind, target, payload)) == Found(before, kind.table, Identity(kind, target, payload))
    requires |Found(before, kind.table, Identity(kind, target, payload))| > 1
    ensures !RevertWorks(before, true, kind, operation, target, payload, after, jd)
  {
    var identity := Identity(kind, target, payload);
    if operation == "add" {
      IdentityOfMatch(kind, target, payload, identity);
    } else {
      var item := Prior(before, kind.table, identity).value;
      var u :| u in Found(before, kind.table, identity) && item == before[u].item;
      IdentityOfMatch(kind, target, payload, item);
    }
  }

  /** An applied change to a firewall rule or Monit test is undone by its revert exactly when it was an "add"
      or a snapshot was stored, and
      - its target agrees with its payload and it is not an "add" over an existing record: the client
        overwrites that record and the inverse deletes it; or
      - its target names another record, the change changed nothing, and the target matches at most one
        record, none if the operation is "add": the inverse works on what the target names. */
  lemma RecordRevertExactlyWhen(before: Rows, stored: bool, kind: Kind, operation: string, target: string, payload: Fields,
                                id: Uuid, after: Rows, jd: Uuid)
    requires Sensible(kind)
    requires ApplyRecord(before, kind, operation, payload, id) == Some(after)
    requires NoDirectives(before, kind)
    requires id !in before && jd !in before && jd !in after
    ensures var own := Found(before, kind.table, Identity(kind, "", payload));
            var named := Found(before, kind.table, Identity(kind, target, payload));
            RevertWorks(before, stored, kind, operation, target, payload, after, jd)
            <==> (stored || operation == "add")
                 && if TargetAgrees(kind, target, payload) then !(operation == "add" && own != {})
                    else ChangesNothing(before, kind, operation, payload) && |named| <= 1
                         && (operation == "add" ==> named == {})
  {
    if TargetAgrees(kind, target, payload) {
      AgreeingRevert(before, kind, operation, target, payload, id, after, jd);
    } else {
      StrayRevert(before, kind, operation, target, payload, id, after, jd);
    }
  }

  lemma KindsAreSensible()
    ensures Sensible(FIREWALL_RULE) && Sensible(MONIT_TEST)
  {
  }

  /** A rule `y` set on a device without rules, recorded with target `x`, stays when it is reverted. */
  lemma StrayTargetFails(x: string, y: string, id: Uuid, jd: Uuid)
    requires x != y && x != "" && y != "" && id != jd
    ensures var payload := map["description" := y];
            var after := ApplyRecord(map[], FIREWALL_RULE, "set", payload, id);
            after.Some? && !RevertWorks(map[], true, FIREWALL_RULE, "set", x, payload, after.value, jd)
  {
    var payload := map["description" := y];
    var before: Rows := map[];
    KindsAreSensible();
    assert Identity(FIREWALL_RULE, "", payload)["description"] == y;
    assert Found(before, "rule", Identity(FIREWALL_RULE, "", payload)) == {};
    var after := ApplyRecord(before, FIREWALL_RULE, "set", payload, id).value;
    RecordRevertExactlyWhen(before, true, FIREWALL_RULE, "set", x, payload, id, after, jd);
  }
}

/** The part of a device's configuration that changes write to: scalar settings, and rows that the
    device keys by a uuid it assigns itself. */
module DeviceStore {

  type Uuid = string
  type Fields = map<string, string>

  /** A row of one grid (or one record table). */
  datatype Row = Row(grid: string, item: Fields)

  type Rows = map<Uuid, Row>

  ghost function Pick<V>(rows: map<Uuid, V>): (u: Uuid)
    requires rows != map[]
    ensures u in rows
  {
    var u :| u in rows; u
  }

  /** The rows without their uuids. */
  ghost function Contents<V>(rows: map<Uuid, V>): multiset<V>
    decreases |rows.Keys|
  {
    if rows == map[] then multiset{}
    else
      Contents(rows - {Pick(rows)}) + multiset{rows[Pick(rows)]}
  }

  lemma RemoveSize<V>(rows: map<Uuid, V>, u: Uuid)
    requires u in rows
    ensures |(rows - {u}).Keys| == |rows.Keys| - 1
  {
    assert (rows - {u}).Keys == rows.Keys - {u};
  }

  /** Any row can be taken out first. */
  lemma {:induction false} ContentsRemove<V>(rows: map<Uuid, V>, u: Uuid)
    requires u in rows
    ensures Contents(rows) == Contents(rows - {u}) + multiset{rows[u]}
    decreases |rows.Keys|
  {
    var v := Pick(rows);
    if v != u {
      var without := rows - {u, v};
      RemoveSize(rows, v);
      RemoveSize(rows, u);
      assert rows - {v} - {u} == without && rows - {u} - {v} == without;
      ContentsRemove(rows - {v}, u);
      ContentsRemove(rows - {u}, v);
      assert Contents(rows - {v}) == Contents(without) + multiset{rows[u]};
      assert Contents(rows - {u}) == Contents(without) + multiset{rows[v]};
    }
  }

  lemma ContentsAdd<V>(rows: map<Uuid, V>, u: Uuid, row: V)
    requires u !in rows
    ensures Contents(rows[u := row]) == Contents(rows) + multiset{row}
  {
    ContentsRemove(rows[u := row], u);
    assert rows[u := row] - {u} == rows;
  }

  lemma {:induction false} ContentsSize<V>(rows: map<Uuid, V>)
    ensures |Contents(rows)| == |rows.Keys|
    decreases |rows.Keys|
  {
    if rows != map[] {
      var u := Pick(rows);
      RemoveSize(rows, u);
      ContentsSize(rows - {u});
    }
  }

  /** The same row under another key. */
  lemma ContentsRekey<V>(rows: map<Uuid, V>, u: Uuid, v: Uuid)
    requires u in rows && v !in rows
    ensures Contents((rows - {u})[v := rows[u]]) == Contents(rows)
  {
    ContentsRemove(rows, u);
    ContentsAdd(rows - {u}, v, rows[u]);
  }

  /* A row less, a row more, or another row is another store */

  lemma ContentsLess<V>(before: map<Uuid, V>, u: Uuid)
    requires u in before
    ensures Contents(before - {u}) != Contents(before)
  {
    ContentsRemove(before, u);
    assert |Contents(before)| == |Contents(before - {u})| + 1;
  }

  lemma ContentsMore<V>(before: map<Uuid, V>, u: Uuid, row: V)
    requires u !in before
    ensures Contents(before[u := row]) != Contents(before)
  {
    ContentsAdd(before, u, row);
    assert |Contents(before[u := row])| == |Contents(before)| + 1;
  }

  /** Taking out the row at `u` and putting in another one, there or elsewhere. */
  lemma ContentsOther<V>(before: map<Uuid, V>, u: Uuid, v: Uuid, row: V)
    requires u in before && (v == u || v !in before)
    ensures Contents((before - {u})[v := row]) == Contents(before) <==> before[u] == row
  {
    var rest := before - {u};
    ContentsRemove(before, u);
    ContentsAdd(rest, v, row);
    if before[u] != row {
      assert Contents(rest[v := row])[row] == Contents(rest)[row] + 1;
      assert Contents(before)[row] == Contents(rest)[row];
    }
  }

  lemma CountRemove<V>(m: map<Uuid, V>, u: Uuid, x: V)
    requires u in m
    ensures Contents(m)[x] == Contents(m - {u})[x] + if m[u] == x then 1 else 0
  {
    ContentsRemove(m, u);
  }

  lemma CountAdd<V>(m: map<Uuid, V>, u: Uuid, row: V, x: V)
    requires u !in m && x != row
    ensures Contents(m[u := row])[x] == Contents(m)[x]
  {
    ContentsAdd(m, u, row);
  }

  /** Two rows replaced, and a row that is lost on the way. */
  lemma ContentsTwo<V>(m: map<Uuid, V>, u: Uuid, a: V, v: Uuid, b: V)
    requires u in m && v in m && u != v && m[v] != a && m[v] != b && m[v] != m[u]
    ensures Contents(m[u := a][v := b]) != Contents(m)
  {
    var rest := m - {u} - {v};
    CountRemove(m, u, m[v]);
    CountRemove(m - {u}, v, m[v]);
    CountAdd(rest, u, a, m[v]);
    CountAdd(rest[u := a], v, b, m[v]);
    SetBoth(m, u, a, v, b);
  }

  lemma SetBoth<V>(m: map<Uuid, V>, u: Uuid, a: V, v: Uuid, b: V)
    requires u in m && v in m && u != v
    ensures m[u := a][v := b] == (m - {u} - {v})[u := a][v := b]
  {
  }
}

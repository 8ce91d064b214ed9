/** The device's IDS policies, addressed by description, and what undoing an edit of them comes to. Two
    stored policies are compared by a meaning that at least tells descriptions apart. */
module PolicyStore {
  import opened Strings
  import opened DeviceStore

  /** A policy as the device stores it; a field may be missing. */
  datatype Stored = Stored(
    description: string,
    enabled: Option<string>,
    prio: Option<string>,
    newAction: Option<string>,
    action: Option<string>,
    rulesets: Option<string>,
    content: Option<string>)

  type Policies = map<Uuid, Stored>

  function Found(ps: Policies, description: string): set<Uuid> {
    set u | u in ps && ps[u].description == description
  }

  datatype Edit = Drop(description: string) | Put(stored: Stored)

  function Subject(e: Edit): string {
    if e.Drop? then e.description else e.stored.description
  }

  /** Delete or upsert by description. An empty or ambiguous description is refused; deleting an absent
      policy is a no-op. `id` is the uuid the device hands out for a new policy. */
  function ApplyEdit(ps: Policies, e: Edit, id: Uuid): Option<Policies> {
    var found := Found(ps, Subject(e));
    if Subject(e) == "" || |found| > 1 then None
    else
      match e
      case Drop(_) => Some(ps - found)
      case Put(stored) =>
        if found == {} then Some(ps[id := stored])
        else Some(map u | u in ps :: if u in found then stored else ps[u])
  }

  lemma OneFound(found: set<Uuid>) returns (u: Uuid)
    requires |found| <= 1 && found != {}
    ensures found == {u}
  {
    u :| u in found;
    assert |found - {u}| == 0;
  }

  lemma PutFound(ps: Policies, stored: Stored, id: Uuid, u: Uuid)
    requires stored.description != "" && Found(ps, stored.description) == {u}
    ensures u in ps && ApplyEdit(ps, Put(stored), id) == Some(ps[u := stored])
  {
    assert u in Found(ps, stored.description);
    assert ApplyEdit(ps, Put(stored), id).value == ps[u := stored];
  }

  lemma DropNone(ps: Policies, description: string, id: Uuid)
    requires description != "" && Found(ps, description) == {}
    ensures ApplyEdit(ps, Drop(description), id) == Some(ps)
  {
    assert ps - {} == ps;
  }

  /** The policy an edit is about is deleted, overwritten or created. */
  lemma AppliedShape(before: Policies, e: Edit, id: Uuid, after: Policies) returns (u: Uuid)
    requires ApplyEdit(before, e, id) == Some(after) && id !in before
    ensures Subject(e) != ""
    ensures u in before ==> Found(before, Subject(e)) == {u} && before[u].description == Subject(e)
    ensures u !in before ==> u == id && Found(before, Subject(e)) == {}
    ensures after == if e.Drop? then before - {u} else before[u := e.stored]
  {
    var found := Found(before, Subject(e));
    if found == {} {
      u := id;
      assert before - {} == before && before - {id} == before;
    } else {
      u := OneFound(found);
      assert u in found;
      if e.Put? {
        PutFound(before, e.stored, id, u);
      }
    }
  }

  /* The same policies in meaning */

  ghost function Meanings<M>(ps: Policies, f: Stored -> M): map<Uuid, M> {
    map u | u in ps :: f(ps[u])
  }

  /** The same policies in meaning, whatever their uuids. */
  ghost predicate Same<M(!new)>(before: Policies, final: Policies, f: Stored -> M) {
    Contents(Meanings(before, f)) == Contents(Meanings(final, f))
  }

  ghost predicate TellsApart<M(!new)>(f: Stored -> M) {
    forall a, b :: f(a) == f(b) ==> a.description == b.description
  }

  lemma MeaningsSet<M>(ps: Policies, u: Uuid, stored: Stored, f: Stored -> M)
    ensures Meanings(ps[u := stored], f) == Meanings(ps, f)[u := f(stored)]
  {
  }

  lemma MeaningsDrop<M>(ps: Policies, u: Uuid, f: Stored -> M)
    ensures Meanings(ps - {u}, f) == Meanings(ps, f) - {u}
  {
  }

  /** One policy replaced, there or under a new uuid. */
  lemma ReplaceOne<M(!new)>(before: Policies, u: Uuid, v: Uuid, stored: Stored, f: Stored -> M)
    requires u in before && (v == u || v !in before)
    ensures Same(before, (before - {u})[v := stored], f) <==> f(stored) == f(before[u])
  {
    MeaningsDrop(before, u, f);
    MeaningsSet(before - {u}, v, stored, f);
    ContentsOther(Meanings(before, f), u, v, f(stored));
  }

  lemma OverwriteOne<M(!new)>(before: Policies, u: Uuid, stored: Stored, f: Stored -> M)
    requires u in before
    ensures Same(before, before[u := stored], f) <==> f(stored) == f(before[u])
  {
    assert before[u := stored] == (before - {u})[u := stored];
    ReplaceOne(before, u, u, stored, f);
  }

  lemma LoseOne<M(!new)>(before: Policies, u: Uuid, f: Stored -> M)
    requires u in before
    ensures !Same(before, before - {u}, f)
  {
    MeaningsDrop(before, u, f);
    ContentsLess(Meanings(before, f), u);
  }

  lemma GainOne<M(!new)>(before: Policies, u: Uuid, stored: Stored, f: Stored -> M)
    requires u !in before
    ensures !Same(before, before[u := stored], f)
  {
    MeaningsSet(before, u, stored, f);
    ContentsMore(Meanings(before, f), u, f(stored));
  }

  lemma SameSize<M(!new)>(before: Policies, final: Policies, f: Stored -> M)
    requires Same(before, final, f)
    ensures |before.Keys| == |final.Keys|
  {
    ContentsSize(Meanings(before, f));
    ContentsSize(Meanings(final, f));
    assert Meanings(before, f).Keys == before.Keys && Meanings(final, f).Keys == final.Keys;
  }

  /** Overwriting `v` with the same meaning does not matter. */
  lemma OverwriteSame<M(!new)>(before: Policies, after: Policies, v: Uuid, stored: Stored, f: Stored -> M)
    requires v in after && f(stored) == f(after[v])
    ensures Same(before, after[v := stored], f) <==> Same(before, after, f)
  {
    MeaningsSet(after, v, stored, f);
    assert Meanings(after, f)[v := f(stored)] == Meanings(after, f);
  }

  /** Applying the edit would leave every policy's meaning as it is. */
  ghost predicate ChangesNothing<M(!new)>(before: Policies, e: Edit, f: Stored -> M) {
    var found := Found(before, Subject(e));
    if e.Drop? then found == {} else found != {} && forall u :: u in found ==> f(e.stored) == f(before[u])
  }

  lemma AppliedSame<M(!new)>(before: Policies, e: Edit, id: Uuid, after: Policies, f: Stored -> M)
    requires ApplyEdit(before, e, id) == Some(after) && id !in before
    ensures Same(before, after, f) <==> ChangesNothing(before, e, f)
  {
    var u := AppliedShape(before, e, id, after);
    if u in before {
      assert u in Found(before, Subject(e));
      if e.Drop? {
        LoseOne(before, u, f);
      } else {
        OverwriteOne(before, u, e.stored, f);
      }
    } else if e.Drop? {
      assert after == before;
    } else {
      GainOne(before, u, e.stored, f);
    }
  }

  /* Undoing an edit under its own name */

  /** Dropping what an edit put, or what it dropped anyway. */
  lemma DropOwn<M(!new)>(before: Policies, e: Edit, id: Uuid, after: Policies, jd: Uuid, f: Stored -> M)
    requires ApplyEdit(before, e, id) == Some(after) && id !in before
    requires e.Put? || Found(before, Subject(e)) == {}
    ensures var final := ApplyEdit(after, Drop(Subject(e)), jd);
            final.Some? && (Same(before, final.value, f) <==> Found(before, Subject(e)) == {})
  {
    var u := AppliedShape(before, e, id, after);
    if e.Drop? {
      assert after == before;
      DropNone(after, Subject(e), jd);
    } else {
      assert Found(after, Subject(e)) == {u};
      assert after - {u} == before - {u};
      if u in before {
        LoseOne(before, u, f);
      } else {
        assert before - {u} == before;
      }
    }
  }

  /** Putting a policy back after an edit that overwrote or dropped it. */
  lemma PutBack<M(!new)>(before: Policies, e: Edit, id: Uuid, after: Policies, u: Uuid, stored: Stored, jd: Uuid, f: Stored -> M)
    requires ApplyEdit(before, e, id) == Some(after) && id !in before && jd !in before
    requires Found(before, Subject(e)) == {u} && u in before && stored.description == Subject(e)
    ensures var final := ApplyEdit(after, Put(stored), jd);
            final.Some? && (Same(before, final.value, f) <==> f(stored) == f(before[u]))
  {
    var w := AppliedShape(before, e, id, after);
    assert u in Found(before, Subject(e));
    assert w == u;
    if e.Drop? {
      assert Found(after, Subject(e)) == {};
      ReplaceOne(before, u, jd, stored, f);
    } else {
      assert Found(after, Subject(e)) == {u};
      PutFound(after, stored, jd, u);
      assert after[u := stored] == before[u := stored];
      OverwriteOne(before, u, stored, f);
    }
  }

  /* Undoing an edit under another name */

  /** An edit does not touch policies of another name. */
  lemma OthersUntouched(before: Policies, e: Edit, id: Uuid, after: Policies, other: string)
    requires ApplyEdit(before, e, id) == Some(after) && id !in before && other != Subject(e)
    ensures Found(after, other) == Found(before, other)
    ensures forall v :: v in Found(before, other) ==> v in after && v in before && after[v] == before[v]
  {
    var u := AppliedShape(before, e, id, after);
    forall v ensures v in Found(after, other) <==> v in Found(before, other) {
    }
  }

  /** Dropping another policy does not make up for a put. */
  lemma DropOther<M(!new)>(before: Policies, e: Edit, id: Uuid, after: Policies, other: string, v: Uuid, jd: Uuid, f: Stored -> M)
    requires ApplyEdit(before, e, id) == Some(after) && id !in before && e.Put? && TellsApart(f)
    requires other != Subject(e) && other != "" && Found(before, other) == {v}
    ensures var final := ApplyEdit(after, Drop(other), jd); final.Some? && !Same(before, final.value, f)
  {
    OthersUntouched(before, e, id, after, other);
    assert v in Found(before, other);
    var u := AppliedShape(before, e, id, after);
    if u in before {
      LosesKey(before, after - {v}, v, f);
    } else {
      assert after - {v} == (before - {v})[u := e.stored];
      ReplaceOne(before, v, u, e.stored, f);
    }
  }

  /** Putting another policy back helps exactly when the edit changed nothing and the policy means what it
      meant. */
  lemma PutOther<M(!new)>(before: Policies, e: Edit, id: Uuid, after: Policies, v: Uuid, stored: Stored, jd: Uuid, f: Stored -> M)
    requires ApplyEdit(before, e, id) == Some(after) && id !in before && TellsApart(f)
    requires stored.description != Subject(e) && stored.description != ""
    requires Found(before, stored.description) == {v} && v in before
    ensures var final := ApplyEdit(after, Put(stored), jd);
            final.Some? && (Same(before, final.value, f) <==> ChangesNothing(before, e, f) && f(stored) == f(before[v]))
  {
    OthersUntouched(before, e, id, after, stored.description);
    assert v in Found(before, stored.description);
    PutFound(after, stored, jd, v);
    if f(stored) == f(before[v]) {
      OverwriteSame(before, after, v, stored, f);
      AppliedSame(before, e, id, after, f);
    } else {
      PutOtherDiffers(before, e, id, after, v, stored, f);
    }
  }

  lemma PutOtherDiffers<M(!new)>(before: Policies, e: Edit, id: Uuid, after: Policies, v: Uuid, stored: Stored, f: Stored -> M)
    requires ApplyEdit(before, e, id) == Some(after) && id !in before && TellsApart(f)
    requires v in before && v in after && after[v] == before[v]
    requires before[v].description != Subject(e) && stored.description == before[v].description
    requires f(stored) != f(before[v])
    ensures !Same(before, after[v := stored], f)
  {
    var u := AppliedShape(before, e, id, after);
    var final := after[v := stored];
    if u in before && e.Put? {
      OverwriteTwo(before, u, e.stored, v, stored, f);
    } else if u in before {
      LosesKey(before, final, u, f);
    } else if e.Drop? {
      assert after == before;
      OverwriteOne(before, v, stored, f);
    } else {
      GainsKey(before, final, u, f);
    }
  }

  /** Overwriting two policies under their own names with one of them changed in meaning. */
  lemma OverwriteTwo<M(!new)>(before: Policies, u: Uuid, s: Stored, v: Uuid, t: Stored, f: Stored -> M)
    requires u in before && v in before && u != v && TellsApart(f) && f(t) != f(before[v])
    requires t.description == before[v].description != s.description == before[u].description
    ensures !Same(before, before[u := s][v := t], f)
  {
    var m := Meanings(before, f);
    MeaningsSet(before, u, s, f);
    MeaningsSet(before[u := s], v, t, f);
    assert m[v] != f(s) && m[v] != m[u];
    ContentsTwo(m, u, f(s), v, f(t));
  }

  lemma LosesKey<M(!new)>(before: Policies, final: Policies, u: Uuid, f: Stored -> M)
    requires u in before && final.Keys == before.Keys - {u}
    ensures !Same(before, final, f)
  {
    if Same(before, final, f) {
      SameSize(before, final, f);
    }
  }

  lemma GainsKey<M(!new)>(before: Policies, final: Policies, u: Uuid, f: Stored -> M)
    requires u !in before && final.Keys == before.Keys + {u}
    ensures !Same(before, final, f)
  {
    if Same(before, final, f) {
      SameSize(before, final, f);
    }
  }
}

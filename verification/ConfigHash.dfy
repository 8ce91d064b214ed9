/** The input of the canonical hash and the structural diff, both read off the flattened map.
    SHA-256 is taken to be injective, so two documents have one hash exactly when they have one
    hash input. */
module ConfigHash {
  import opened Strings
  import opened ConfigTree
  import opened ConfigDiff

  type Flat = map<string, string>

  function Line(m: Flat, p: string): string
    requires p in m
  {
    p + "=" + m[p]
  }

  function Lines(m: Flat): (lines: seq<string>)
    ensures |lines| == |m|
  {
    var keys := Sorted(m.Keys);
    seq(|keys|, i requires 0 <= i < |keys| => Line(m, keys[i]))
  }

  /** The lines `path=value` in path order, joined by newlines. */
  function Blob(m: Flat): string {
    Join(Lines(m), '\n')
  }

  ghost function HashInput(xml: Element): string {
    Blob(Flatten(xml))
  }

  /** What every flattened map satisfies. */
  ghost predicate PlainPaths(m: Flat) {
    m != map[] && forall p :: p in m ==> '=' !in p && '\n' !in p
  }

  ghost predicate NewlineFree(m: Flat) {
    forall p :: p in m ==> '\n' !in m[p]
  }

  lemma FlattenHasPlainPaths(xml: Element)
    requires WellFormed(xml)
    ensures PlainPaths(Flatten(xml))
  {
    var root := StripVolatile(xml);
    var m := Flatten(xml);
    StripVolatileKeepsForm(xml);
    WalkSound(root, root.tag);
    forall k | k in m ensures '=' !in k && '\n' !in k {
      assert Addresses(root, root.tag, k, m[k]);
      var p :| k == Key(root.tag, p) && Lookup(root, p) == Some(m[k]);
      LookupIsValid(root, p);
      KeyText(root.tag, p);
      PathTextChars(p);
    }
    var p := SomeLookup(root);
    WalkCovers(root, root.tag, p);
  }

  /* The blob determines the map when no value holds a newline */

  lemma LinesSplit(m: Flat)
    requires PlainPaths(m) && NewlineFree(m)
    ensures Split(Blob(m), '\n') == Lines(m)
  {
    var lines := Lines(m);
    forall i | 0 <= i < |lines| ensures '\n' !in lines[i] {
      assert Sorted(m.Keys)[i] in m;
    }
    assert m.Keys != {};
    SplitJoin(lines, '\n');
  }

  lemma LinesDetermine(m: Flat, n: Flat, p: string)
    requires PlainPaths(m) && PlainPaths(n) && Lines(m) == Lines(n) && p in m
    ensures p in n && n[p] == m[p]
  {
    var km, kn := Sorted(m.Keys), Sorted(n.Keys);
    assert p in km;
    var i :| 0 <= i < |km| && km[i] == p;
    assert kn[i] in n;
    assert Lines(m)[i] == p + ['='] + m[p];
    assert Lines(n)[i] == kn[i] + ['='] + n[kn[i]];
    PartitionCut(p, m[p], '=');
    PartitionCut(kn[i], n[kn[i]], '=');
  }

  /** The sorted `path=value` join is injective on maps without newlines in their values. */
  lemma BlobInjective(m: Flat, n: Flat)
    requires PlainPaths(m) && PlainPaths(n) && NewlineFree(m) && NewlineFree(n)
    requires Blob(m) == Blob(n)
    ensures m == n
  {
    LinesSplit(m);
    LinesSplit(n);
    forall p ensures p in m <==> p in n
             ensures p in m ==> m[p] == n[p]
    {
      if p in m {
        LinesDetermine(m, n, p);
      }
      if p in n {
        LinesDetermine(n, m, p);
      }
    }
  }

  /* Structural diff */

  datatype Kind = Added | Removed | Modified
  datatype Change = Change(path: string, kind: Kind)

  function DiffAt(a: Flat, b: Flat, p: string): seq<Change> {
    if p !in b then [Change(p, Removed)]
    else if p !in a then [Change(p, Added)]
    else if a[p] != b[p] then [Change(p, Modified)]
    else []
  }

  function DiffOver(a: Flat, b: Flat, paths: seq<string>): seq<Change> {
    if paths == [] then []
    else DiffOver(a, b, paths[..|paths| - 1]) + DiffAt(a, b, paths[|paths| - 1])
  }

  function Diff(a: Flat, b: Flat): seq<Change> {
    DiffOver(a, b, Sorted(a.Keys + b.Keys))
  }

  ghost function StructuralDiff(a: Element, b: Element): seq<Change> {
    Diff(Flatten(a), Flatten(b))
  }

  lemma {:induction false} DiffOverHolds(a: Flat, b: Flat, paths: seq<string>, c: Change)
    ensures c in DiffOver(a, b, paths) <==> c.path in paths && c in DiffAt(a, b, c.path)
  {
    if paths != [] {
      var front, last := paths[..|paths| - 1], paths[|paths| - 1];
      DiffOverHolds(a, b, front, c);
      assert paths == front + [last];
      assert c in DiffAt(a, b, last) ==> c.path == last;
    }
  }

  /** A path is reported removed, added or modified exactly when it is. */
  lemma DiffReports(a: Flat, b: Flat, p: string)
    ensures Change(p, Removed) in Diff(a, b) <==> p in a && p !in b
    ensures Change(p, Added) in Diff(a, b) <==> p !in a && p in b
    ensures Change(p, Modified) in Diff(a, b) <==> p in a && p in b && a[p] != b[p]
  {
    var paths := Sorted(a.Keys + b.Keys);
    DiffOverHolds(a, b, paths, Change(p, Removed));
    DiffOverHolds(a, b, paths, Change(p, Added));
    DiffOverHolds(a, b, paths, Change(p, Modified));
  }

  lemma {:induction false} DiffOverSame(a: Flat, paths: seq<string>)
    requires forall p :: p in paths ==> p in a
    ensures DiffOver(a, a, paths) == []
  {
    if paths != [] {
      DiffOverSame(a, paths[..|paths| - 1]);
      assert paths[|paths| - 1] in a;
    }
  }

  lemma DiffEmptyIffEqual(a: Flat, b: Flat)
    ensures Diff(a, b) == [] <==> a == b
  {
    if a == b {
      DiffOverSame(a, Sorted(a.Keys + b.Keys));
    }
    if Diff(a, b) == [] {
      forall p ensures p in a <==> p in b
               ensures p in a && p in b ==> a[p] == b[p]
      {
        DiffReports(a, b, p);
      }
      assert a == b;
    }
  }

  function SwapKind(k: Kind): Kind {
    match k
    case Added => Removed
    case Removed => Added
    case Modified => Modified
  }

  function Swap(cs: seq<Change>): seq<Change> {
    seq(|cs|, i requires 0 <= i < |cs| => Change(cs[i].path, SwapKind(cs[i].kind)))
  }

  lemma {:induction false} DiffOverSwaps(a: Flat, b: Flat, paths: seq<string>)
    requires forall i :: 0 <= i < |paths| ==> paths[i] in a || paths[i] in b
    ensures DiffOver(b, a, paths) == Swap(DiffOver(a, b, paths))
  {
    if paths != [] {
      var front, last := paths[..|paths| - 1], paths[|paths| - 1];
      DiffOverSwaps(a, b, front);
      assert DiffAt(b, a, last) == Swap(DiffAt(a, b, last));
      var x, y := DiffOver(a, b, front), DiffAt(a, b, last);
      assert Swap(x + y) == Swap(x) + Swap(y);
    }
  }

  lemma DiffSwaps(a: Flat, b: Flat)
    ensures Diff(b, a) == Swap(Diff(a, b))
  {
    assert a.Keys + b.Keys == b.Keys + a.Keys;
    var paths := Sorted(a.Keys + b.Keys);
    forall i | 0 <= i < |paths| ensures paths[i] in a || paths[i] in b {
      assert paths[i] in paths;
    }
    DiffOverSwaps(a, b, paths);
  }

  /** Swapping the documents swaps added and removed, keeps modified, and keeps the order. */
  lemma StructuralDiffSwaps(a: Element, b: Element)
    ensures StructuralDiff(b, a) == Swap(StructuralDiff(a, b))
  {
    DiffSwaps(Flatten(a), Flatten(b));
  }

  /* The hash agrees with the diff */

  /** An empty diff means one hash; for documents whose values hold no newline, one hash means an
      empty diff. */
  lemma HashAgreesWithDiff(a: Element, b: Element)
    requires WellFormed(a) && WellFormed(b)
    ensures StructuralDiff(a, b) == [] ==> HashInput(a) == HashInput(b)
    ensures NewlineFree(Flatten(a)) && NewlineFree(Flatten(b)) && HashInput(a) == HashInput(b)
            ==> StructuralDiff(a, b) == []
  {
    DiffEmptyIffEqual(Flatten(a), Flatten(b));
    FlattenHasPlainPaths(a);
    FlattenHasPlainPaths(b);
    if NewlineFree(Flatten(a)) && NewlineFree(Flatten(b)) && HashInput(a) == HashInput(b) {
      BlobInjective(Flatten(a), Flatten(b));
    }
  }

  /** The no-clobber guard and the backup deduplication compare hashes: for documents whose values
      hold no newline, equal hashes mean equal documents, up to what flattening forgets. */
  lemma HashFaithful(a: Element, b: Element)
    requires WellFormed(a) && WellFormed(b)
    requires NewlineFree(Flatten(a)) && NewlineFree(Flatten(b))
    ensures HashInput(a) == HashInput(b) <==> Equivalent(StripVolatile(a), StripVolatile(b))
  {
    HashAgreesWithDiff(a, b);
    DiffEmptyIffEqual(Flatten(a), Flatten(b));
    FlattenFaithful(a, b);
  }

  /* With newlines in values the join is not injective */

  ghost predicate IsEntry(line: string) {
    Partition(line, '=').Some?
  }

  ghost function Head(line: string): string
    requires IsEntry(line)
  {
    Partition(line, '=').value.0
  }

  ghost function Tail(line: string): string
    requires IsEntry(line)
  {
    Partition(line, '=').value.1
  }

  /** The lines can be read as the sorted entries of some map. */
  ghost predicate SortedEntries(lines: seq<string>) {
    && (forall i :: 0 <= i < |lines| ==> IsEntry(lines[i]))
    && (forall i, j :: 0 <= i < j < |lines| ==> Less(Head(lines[i]), Head(lines[j])))
  }

  ghost predicate ReadsAsEntries(m: Flat) {
    SortedEntries(Split(Blob(m), '\n'))
  }

  lemma LineIsEntry(m: Flat, p: string)
    requires PlainPaths(m) && p in m
    ensures IsEntry(Line(m, p)) && Head(Line(m, p)) == p && Tail(Line(m, p)) == m[p]
  {
    assert Line(m, p) == p + ['='] + m[p];
    PartitionCut(p, m[p], '=');
  }

  lemma LinesAreEntries(m: Flat)
    requires PlainPaths(m)
    ensures SortedEntries(Lines(m))
  {
    var lines, keys := Lines(m), Sorted(m.Keys);
    SortedAscending(m.Keys);
    forall i | 0 <= i < |lines| ensures IsEntry(lines[i]) && Head(lines[i]) == keys[i] {
      assert keys[i] in m;
      LineIsEntry(m, keys[i]);
    }
  }

  lemma EntryChars(line: string)
    requires IsEntry(line) && '\n' !in line
    ensures '=' !in Head(line) && '\n' !in Head(line) && '\n' !in Tail(line)
    ensures line == Head(line) + "=" + Tail(line)
  {
    PartitionRebuilds(line, '=');
    assert forall x :: x in Head(line) ==> x in line;
    assert forall x :: x in Tail(line) ==> x in line;
  }

  ghost predicate HoldsEntries(n: Flat, lines: seq<string>)
    requires SortedEntries(lines)
  {
    && (forall j :: 0 <= j < |lines| ==> Head(lines[j]) in n && n[Head(lines[j])] == Tail(lines[j]))
    && (forall p :: p in n ==> exists j :: 0 <= j < |lines| && Head(lines[j]) == p)
  }

  lemma {:induction false} BuildEntries(lines: seq<string>) returns (n: Flat)
    requires SortedEntries(lines)
    ensures HoldsEntries(n, lines)
  {
    if lines == [] {
      n := map[];
    } else {
      var front, last := lines[..|lines| - 1], lines[|lines| - 1];
      var rest := BuildEntries(front);
      n := rest[Head(last) := Tail(last)];
      forall j | 0 <= j < |lines|
        ensures Head(lines[j]) in n && n[Head(lines[j])] == Tail(lines[j])
      {
        if j < |front| {
          assert front[j] == lines[j];
          LessTotal(Head(lines[j]), Head(last));
        }
      }
      forall p | p in n ensures exists j :: 0 <= j < |lines| && Head(lines[j]) == p {
        if p in rest {
          var j :| 0 <= j < |front| && Head(front[j]) == p;
          assert Head(lines[j]) == p;
        } else {
          assert Head(lines[|lines| - 1]) == p;
        }
      }
    }
  }

  lemma EntryLine(n: Flat, line: string)
    requires IsEntry(line) && '\n' !in line && Head(line) in n && n[Head(line)] == Tail(line)
    ensures Line(n, Head(line)) == line
  {
    EntryChars(line);
  }

  lemma EntriesGiveKeys(n: Flat, lines: seq<string>, heads: seq<string>)
    requires SortedEntries(lines) && HoldsEntries(n, lines)
    requires |heads| == |lines| && forall i :: 0 <= i < |lines| ==> heads[i] == Head(lines[i])
    ensures Sorted(n.Keys) == heads
  {
    forall k ensures k in heads <==> k in Sorted(n.Keys) {
      if k in n {
        var j :| 0 <= j < |lines| && Head(lines[j]) == k;
        assert heads[j] == k;
      }
    }
    SortedAscending(n.Keys);
    AscendingUnique(heads, Sorted(n.Keys));
  }

  lemma EntriesGiveLines(n: Flat, lines: seq<string>)
    requires SortedEntries(lines) && HoldsEntries(n, lines)
    requires forall i :: 0 <= i < |lines| ==> '\n' !in lines[i]
    ensures Lines(n) == lines
  {
    var heads := seq(|lines|, i requires 0 <= i < |lines| => Head(lines[i]));
    EntriesGiveKeys(n, lines, heads);
    forall j | 0 <= j < |lines| ensures Lines(n)[j] == lines[j] {
      EntryLine(n, lines[j]);
    }
  }

  /** The map whose entries are the lines of the blob of `m`. */
  lemma Reread(m: Flat) returns (n: Flat)
    requires ReadsAsEntries(m)
    ensures PlainPaths(n) && NewlineFree(n) && Blob(n) == Blob(m)
  {
    var lines := Split(Blob(m), '\n');
    n := BuildEntries(lines);
    EntriesGiveLines(n, lines);
    JoinSplit(Blob(m), '\n');
    assert Head(lines[0]) in n;
    forall p | p in n ensures '=' !in p && '\n' !in p && '\n' !in n[p] {
      var j :| 0 <= j < |lines| && Head(lines[j]) == p;
      EntryChars(lines[j]);
    }
  }

  /** Which maps share their blob with a different, newline-free map: exactly those that hold a
      newline in a value and whose blob still reads, line by line, as sorted entries. */
  lemma CollidesWithNewlineFree(m: Flat)
    requires PlainPaths(m)
    ensures (exists n :: n != m && PlainPaths(n) && NewlineFree(n) && Blob(n) == Blob(m))
            <==> !NewlineFree(m) && ReadsAsEntries(m)
  {
    forall n: Flat | n != m && PlainPaths(n) && NewlineFree(n) && Blob(n) == Blob(m)
      ensures !NewlineFree(m) && ReadsAsEntries(m)
    {
      if NewlineFree(m) {
        BlobInjective(m, n);
      }
      LinesSplit(n);
      LinesAreEntries(n);
    }
    if !NewlineFree(m) && ReadsAsEntries(m) {
      var n := Reread(m);
      assert n != m;
    }
  }

  /* Colliding documents: <tag>x, newline, tag/@k=y</tag> and <tag k="y">x</tag> */

  function OneValue(tag: string, k: string, x: string, y: string): Element {
    Element(tag, map[], Some(x + "\n" + (AttrKey(tag, k) + "=" + y)), [])
  }

  function TwoValues(tag: string, k: string, x: string, y: string): Element {
    Element(tag, map[k := y], Some(x), [])
  }

  /** A text without spaces at its ends is kept. */
  lemma LeafTextStays(e: Element, x: string)
    requires e.text == Some(x) && Edged(x, SPACES)
    ensures LeafText(e) == x
  {
    assert x == "" + x + "";
    StripUnique(x, SPACES, "", x, "");
  }

  lemma FlattenOne(tag: string, text: string)
    requires Edged(text, SPACES)
    ensures Flatten(Element(tag, map[], Some(text), [])) == map[tag := text]
  {
    var e := Element(tag, map[], Some(text), []);
    assert DropVolatile([]) == [];
    assert AttrWrites(map[], tag) == map[];
    LeafTextStays(e, text);
    assert Walk(e, tag) == map[tag := text];
  }

  lemma FlattenTwo(tag: string, k: string, x: string, y: string)
    requires Edged(x, SPACES)
    ensures Flatten(TwoValues(tag, k, x, y)) == map[AttrKey(tag, k) := y] + map[tag := x]
  {
    var e := TwoValues(tag, k, x, y);
    assert DropVolatile([]) == [];
    var attrs := AttrWrites(map[k := y], tag);
    AttrWritesHolds(map[k := y], tag, k);
    assert map[k := y] - {k} == map[];
    assert attrs == map[AttrKey(tag, k) := y];
    LeafTextStays(e, x);
    assert Walk(e, tag) == attrs + map[tag := x];
  }

  lemma {:induction false} LessExtended(a: string, b: string)
    requires b != ""
    ensures Less(a, a + b)
  {
    if a != "" {
      LessExtended(a[1..], b);
      assert (a + b)[1..] == a[1..] + b;
    }
  }

  lemma JoinTwo(a: string, b: string, sep: char)
    ensures Join([a, b], sep) == a + [sep] + b
  {
    assert [a, b][1..] == [b];
  }

  lemma BlobOne(m: Flat, p: string)
    requires m.Keys == {p}
    ensures Blob(m) == Line(m, p)
  {
    SortedAscending({p});
    AscendingUnique([p], Sorted({p}));
    assert Lines(m) == [Line(m, p)];
  }

  lemma BlobTwo(m: Flat, p: string, q: string)
    requires m.Keys == {p, q} && Less(p, q)
    ensures Blob(m) == Line(m, p) + "\n" + Line(m, q)
  {
    SortedAscending({p, q});
    assert Ascending([p, q]);
    AscendingUnique([p, q], Sorted({p, q}));
    assert Lines(m) == [Line(m, p), Line(m, q)];
    JoinTwo(Line(m, p), Line(m, q), '\n');
  }

  lemma RegroupLine(p: string, x: string, rest: string)
    ensures p + "=" + (x + "\n" + rest) == (p + "=" + x) + "\n" + rest
  {
  }

  lemma CollidingBlobs(m: Flat, n: Flat, p: string, q: string)
    requires m.Keys == {p} && n.Keys == {p, q} && Less(p, q)
    requires m[p] == n[p] + "\n" + Line(n, q)
    ensures Blob(m) == Blob(n)
  {
    BlobOne(m, p);
    BlobTwo(n, p, q);
    RegroupLine(p, n[p], Line(n, q));
  }

  /** Two documents that differ, with a non-empty diff, and one hash. */
  lemma HashCollision(tag: string, k: string, x: string, y: string)
    requires ValidName(tag) && ValidName(k) && x != "" && y != "" && Edged(x, SPACES) && Edged(y, SPACES)
    ensures WellFormed(OneValue(tag, k, x, y)) && WellFormed(TwoValues(tag, k, x, y))
    ensures HashInput(OneValue(tag, k, x, y)) == HashInput(TwoValues(tag, k, x, y))
    ensures StructuralDiff(OneValue(tag, k, x, y), TwoValues(tag, k, x, y)) != []
    ensures !Equivalent(StripVolatile(OneValue(tag, k, x, y)), StripVolatile(TwoValues(tag, k, x, y)))
  {
    var m, n := CollidingMaps(tag, k, x, y);
    CollidingBlobs(m, n, tag, AttrKey(tag, k));
    DiffEmptyIffEqual(m, n);
    FlattenFaithful(OneValue(tag, k, x, y), TwoValues(tag, k, x, y));
  }

  lemma EdgedText(x: string, p: string, y: string)
    requires x != "" && y != "" && Edged(x, SPACES) && Edged(y, SPACES)
    ensures Edged(x + "\n" + (p + "=" + y), SPACES)
  {
    var s := x + "\n" + (p + "=" + y);
    assert s[0] == x[0] && s[|s| - 1] == y[|y| - 1];
  }

  lemma PathBeforeAttr(tag: string, k: string)
    ensures Less(tag, AttrKey(tag, k)) && tag != AttrKey(tag, k)
  {
    assert AttrKey(tag, k) == tag + ("/@" + k);
    LessExtended(tag, "/@" + k);
  }

  lemma CollidingMaps(tag: string, k: string, x: string, y: string) returns (m: Flat, n: Flat)
    requires ValidName(tag) && ValidName(k) && x != "" && y != "" && Edged(x, SPACES) && Edged(y, SPACES)
    ensures m == Flatten(OneValue(tag, k, x, y)) && n == Flatten(TwoValues(tag, k, x, y))
    ensures m != n && m.Keys == {tag} && n.Keys == {tag, AttrKey(tag, k)}
    ensures Less(tag, AttrKey(tag, k)) && m[tag] == n[tag] + "\n" + Line(n, AttrKey(tag, k))
  {
    var key := AttrKey(tag, k);
    var text := x + "\n" + (key + "=" + y);
    PathBeforeAttr(tag, k);
    EdgedText(x, key, y);
    FlattenOne(tag, text);
    FlattenTwo(tag, k, x, y);
    m, n := map[tag := text], map[key := y] + map[tag := x];
    assert key in n && key !in m;
    assert Line(n, key) == key + "=" + y;
  }
}

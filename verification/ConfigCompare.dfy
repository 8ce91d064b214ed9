/** The loops that build the flattened map and the structural diff. */
module ConfigCompare {
  import opened Strings
  import opened ConfigTree
  import opened ConfigDiff
  import opened ConfigHash

  /* One loop iteration of each specification function */

  lemma DropStep(cs: seq<Element>, i: nat)
    requires i < |cs|
    ensures DropVolatile(cs[..i + 1]) ==
            DropVolatile(cs[..i]) + if cs[i].tag in VOLATILE_TAGS then [] else [cs[i]]
  {
    assert cs[..i + 1][..i] == cs[..i];
  }

  function Get(m: map<string, nat>, k: string): nat {
    if k in m then m[k] else 0
  }

  /** The counter dictionary after the first `n` children have been counted. */
  function Tally(cs: seq<Element>, n: nat): map<string, nat>
    requires n <= |cs|
  {
    if n == 0 then map[]
    else
      var before, tag := Tally(cs, n - 1), cs[n - 1].tag;
      before[tag := Get(before, tag) + 1]
  }

  lemma {:induction false} TallyCounts(cs: seq<Element>, n: nat, tag: string)
    requires n <= |cs|
    ensures Get(Tally(cs, n), tag) == Rank(cs, n, tag)
    decreases n
  {
    if n > 0 {
      TallyCounts(cs, n - 1, tag);
    }
  }

  lemma UnionStep(ms: seq<map<string, string>>, j: nat)
    requires j < |ms|
    ensures UnionAll(ms[..j + 1]) == UnionAll(ms[..j]) + ms[j]
  {
    assert ms[..j + 1][..j] == ms[..j];
  }

  lemma DiffStep(a: Flat, b: Flat, paths: seq<string>, i: nat)
    requires i < |paths|
    ensures DiffOver(a, b, paths[..i + 1]) == DiffOver(a, b, paths[..i]) + DiffAt(a, b, paths[i])
  {
    assert paths[..i + 1][..i] == paths[..i];
  }

  lemma AttrStep(done: map<string, string>, key: string, value: string, path: string)
    requires key !in done
    ensures AttrWrites(done[key := value], path) == AttrWrites(done, path)[AttrKey(path, key) := value]
  {
    var m, n := AttrWrites(done[key := value], path), AttrWrites(done, path)[AttrKey(path, key) := value];
    forall k ensures k in m <==> k in n
             ensures k in m && k in n ==> m[k] == n[k]
    {
      if k in m {
        var name := AttrWritesFrom(done[key := value], path, k);
        AttrWritesHolds(done[key := value], path, name);
        AttrWritesHolds(done, path, name);
      }
      if k in n && k != AttrKey(path, key) {
        var name := AttrWritesFrom(done, path, k);
        AttrWritesHolds(done[key := value], path, name);
        AttrWritesHolds(done, path, name);
      }
      AttrWritesHolds(done[key := value], path, key);
    }
  }

  lemma JoinMaps(m: map<string, string>, n: map<string, string>, k: string, v: string)
    ensures (m + n)[k := v] == m + n[k := v]
  {
  }

  lemma Associate(m: map<string, string>, n: map<string, string>, o: map<string, string>)
    ensures (m + n) + o == m + (n + o)
  {
  }

  lemma SpliceOut(a: seq<Element>, b: seq<Element>)
    requires b != []
    ensures (a + b)[..|a|] + (a + b)[|a| + 1..] == a + b[1..]
  {
  }

  /** One turn of the removal loop. */
  lemma RemoveStep(cs: seq<Element>, i: nat)
    requires i < |cs|
    ensures var kept, after := DropVolatile(cs[..i]), DropVolatile(cs[..i + 1]);
            var list := kept + cs[i..];
            if cs[i].tag in VOLATILE_TAGS
            then after == kept && list[..|kept|] + list[|kept| + 1..] == after + cs[i + 1..]
            else |after| == |kept| + 1 && list == after + cs[i + 1..]
  {
    DropStep(cs, i);
    SpliceOut(DropVolatile(cs[..i]), cs[i..]);
    assert cs[i..] == [cs[i]] + cs[i + 1..];
  }

  /** Walks a copy of the child list and removes the volatile children from the list itself. */
  method RemoveVolatile(root: Element) returns (r: Element)
    ensures r == StripVolatile(root)
  {
    var copy := root.children;
    var children := copy;
    var kept := 0;
    for i := 0 to |copy|
      invariant kept == |DropVolatile(copy[..i])|
      invariant children == DropVolatile(copy[..i]) + copy[i..]
    {
      RemoveStep(copy, i);
      if copy[i].tag in VOLATILE_TAGS {
        children := children[..kept] + children[kept + 1..];
      } else {
        kept := kept + 1;
      }
    }
    assert copy[..|copy|] == copy;
    r := root.(children := children);
  }

  /** How many children carry each tag. */
  method TagTotals(children: seq<Element>) returns (total: map<string, nat>)
    ensures total == Tally(children, |children|)
  {
    total := map[];
    for i := 0 to |children|
      invariant total == Tally(children, i)
    {
      total := total[children[i].tag := Get(total, children[i].tag) + 1];
    }
  }

  method WriteAttributes(attrib: map<string, string>, path: string, out0: map<string, string>)
    returns (out: map<string, string>)
    ensures out == out0 + AttrWrites(attrib, path)
  {
    out := out0;
    var left := attrib.Keys;
    while left != {}
      invariant left <= attrib.Keys
      invariant out == out0 + AttrWrites(attrib - left, path)
      decreases left
    {
      var key :| key in left;
      ghost var done := attrib - left;
      out := out[AttrKey(path, key) := attrib[key]];
      left := left - {key};
      assert attrib - left == done[key := attrib[key]];
      AttrStep(done, key, attrib[key], path);
      JoinMaps(out0, AttrWrites(done, path), AttrKey(path, key), attrib[key]);
    }
    assert attrib - left == attrib;
  }

  /** `walk`: adds the entries of `elem` to `out`. */
  method WalkInto(elem: Element, path: string, out0: map<string, string>)
    returns (out: map<string, string>)
    ensures out == out0 + Walk(elem, path)
    decreases elem, 2
  {
    out := WriteAttributes(elem.attrib, path, out0);
    if elem.children == [] {
      out := out[path := LeafText(elem)];
      JoinMaps(out0, AttrWrites(elem.attrib, path), path, LeafText(elem));
    } else {
      out := WalkChildrenInto(elem, path, out);
      WalkInner(elem, path);
      Associate(out0, AttrWrites(elem.attrib, path), UnionAll(Below(elem, path)));
    }
  }

  /** The second half of `walk`: repeated siblings are indexed by position. */
  method WalkChildrenInto(elem: Element, path: string, out0: map<string, string>)
    returns (out: map<string, string>)
    ensures out == out0 + UnionAll(Below(elem, path))
    decreases elem, 1
  {
    var children := elem.children;
    var total := TagTotals(children);
    var seen: map<string, nat> := map[];
    ghost var below := Below(elem, path);
    out := out0;
    for j := 0 to |children|
      invariant seen == Tally(children, j)
      invariant out == out0 + UnionAll(below[..j])
    {
      var tag := children[j].tag;
      seen := seen[tag := Get(seen, tag) + 1];
      out := WalkChildInto(elem, j, Get(total, tag), Get(seen, tag), path, below, out0, out);
    }
    assert below[..|children|] == below;
  }

  method WalkChildInto(elem: Element, j: nat, total: nat, seen: nat, path: string, ghost below: seq<map<string, string>>,
                       ghost start: map<string, string>, out0: map<string, string>)
    returns (out: map<string, string>)
    requires j < |elem.children| && below == Below(elem, path)
    requires total == Get(Tally(elem.children, |elem.children|), elem.children[j].tag)
    requires seen == Get(Tally(elem.children, j + 1), elem.children[j].tag)
    requires out0 == start + UnionAll(below[..j])
    ensures out == start + UnionAll(below[..j + 1])
    decreases elem, 0
  {
    var seg := Segment(elem.children[j].tag, total, seen);
    SegIsWritten(elem.children, j);
    out := WalkInto(elem.children[j], path + "/" + seg, out0);
    UnionStep(below, j);
    Associate(start, UnionAll(below[..j]), below[j]);
  }

  function Segment(tag: string, total: nat, seen: nat): string {
    if total == 1 then tag else tag + ("[" + Decimal(seen) + "]")
  }

  lemma SegIsWritten(children: seq<Element>, j: nat)
    requires j < |children|
    ensures Segment(children[j].tag, Get(Tally(children, |children|), children[j].tag),
                    Get(Tally(children, j + 1), children[j].tag))
            == SegText(SegOf(children, j))
  {
    TallyCounts(children, |children|, children[j].tag);
    TallyCounts(children, j + 1, children[j].tag);
    WithTagAt(children, j);
  }

  method FlattenXml(xml: Element) returns (out: map<string, string>)
    ensures out == Flatten(xml)
  {
    var root := RemoveVolatile(xml);
    out := WalkInto(root, root.tag, map[]);
  }

  method ListDifferences(a: Flat, b: Flat) returns (changes: seq<Change>)
    ensures changes == Diff(a, b)
  {
    var paths := Sorted(a.Keys + b.Keys);
    changes := [];
    for i := 0 to |paths|
      invariant changes == DiffOver(a, b, paths[..i])
    {
      DiffStep(a, b, paths, i);
      var path := paths[i];
      if path !in b {
        changes := changes + [Change(path, Removed)];
      } else if path !in a {
        changes := changes + [Change(path, Added)];
      } else if a[path] != b[path] {
        changes := changes + [Change(path, Modified)];
      }
    }
    assert paths[..|paths|] == paths;
  }

  method CompareXml(a: Element, b: Element) returns (changes: seq<Change>)
    ensures changes == StructuralDiff(a, b)
  {
    var fa := FlattenXml(a);
    var fb := FlattenXml(b);
    changes := ListDifferences(fa, fb);
  }
}

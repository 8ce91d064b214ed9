/** Version-tolerant comparison of two config.xml documents: the flattened map, the input of the
    canonical hash, and the structural diff. */
module ConfigDiff {
  import opened Strings
  import opened ConfigTree

  /* The flattened map */

  function AttrKey(path: string, name: string): (key: string)
    ensures |key| == |path| + 2 + |name| && key[|path| + 2..] == name
  {
    path + "/@" + name
  }

  function ChildPath(path: string, s: Seg): string {
    path + "/" + SegText(s)
  }

  /** One entry per attribute. */
  ghost function AttrWrites(attrib: map<string, string>, path: string): map<string, string>
    decreases |attrib|
  {
    if attrib == map[] then map[]
    else
      var k :| k in attrib;
      AttrWrites(attrib - {k}, path)[AttrKey(path, k) := attrib[k]]
  }

  lemma {:induction false} AttrWritesHolds(attrib: map<string, string>, path: string, name: string)
    ensures AttrKey(path, name) in AttrWrites(attrib, path) <==> name in attrib
    ensures name in attrib ==> AttrWrites(attrib, path)[AttrKey(path, name)] == attrib[name]
    decreases |attrib|
  {
    if attrib != map[] {
      var k :| k in attrib && AttrWrites(attrib, path) == AttrWrites(attrib - {k}, path)[AttrKey(path, k) := attrib[k]];
      AttrWritesHolds(attrib - {k}, path, name);
      if name != k {
        assert AttrKey(path, name)[|path| + 2..] != AttrKey(path, k)[|path| + 2..];
        assert name in attrib - {k} <==> name in attrib;
      }
    }
  }

  lemma {:induction false} AttrWritesFrom(attrib: map<string, string>, path: string, key: string)
    returns (name: string)
    requires key in AttrWrites(attrib, path)
    ensures name in attrib && key == AttrKey(path, name)
    decreases |attrib|
  {
    var k :| k in attrib && AttrWrites(attrib, path) == AttrWrites(attrib - {k}, path)[AttrKey(path, k) := attrib[k]];
    if key == AttrKey(path, k) {
      name := k;
    } else {
      name := AttrWritesFrom(attrib - {k}, path, key);
    }
  }

  lemma {:induction false} AttrWritesCount(attrib: map<string, string>, path: string)
    ensures |AttrWrites(attrib, path)| == |attrib|
    decreases |attrib|
  {
    if attrib != map[] {
      var k :| k in attrib && AttrWrites(attrib, path) == AttrWrites(attrib - {k}, path)[AttrKey(path, k) := attrib[k]];
      AttrWritesCount(attrib - {k}, path);
      AttrWritesHolds(attrib - {k}, path, k);
      assert (attrib - {k}).Keys == attrib.Keys - {k};
      assert |attrib - {k}| == |attrib| - 1;
    }
  }

  /** Later maps win, as later assignments to `out` do. */
  function UnionAll(ms: seq<map<string, string>>): map<string, string> {
    if ms == [] then map[] else UnionAll(ms[..|ms| - 1]) + ms[|ms| - 1]
  }

  /** What `walk(elem, path)` adds to `out`. */
  ghost function Walk(e: Element, path: string): map<string, string> {
    AttrWrites(e.attrib, path) +
    if e.children == [] then map[path := LeafText(e)]
    else UnionAll(seq(|e.children|, j requires 0 <= j < |e.children| =>
      Walk(e.children[j], ChildPath(path, SegOf(e.children, j)))))
  }

  /** What the calls for the children of `e` add, child by child. */
  ghost function Below(e: Element, path: string): seq<map<string, string>> {
    seq(|e.children|, j requires 0 <= j < |e.children| =>
      Walk(e.children[j], ChildPath(path, SegOf(e.children, j))))
  }

  lemma WalkInner(e: Element, path: string)
    requires e.children != []
    ensures Walk(e, path) == AttrWrites(e.attrib, path) + UnionAll(Below(e, path))
  {
    assert Below(e, path) == seq(|e.children|, j requires 0 <= j < |e.children| =>
      Walk(e.children[j], ChildPath(path, SegOf(e.children, j))));
  }

  ghost function Flatten(xml: Element): map<string, string> {
    var root := StripVolatile(xml);
    Walk(root, root.tag)
  }

  function Sum(ns: seq<nat>): nat {
    if ns == [] then 0 else Sum(ns[..|ns| - 1]) + ns[|ns| - 1]
  }

  /** How many assignments `walk` performs: one per attribute and one per childless element. */
  function Writes(e: Element): nat {
    |e.attrib| +
    if e.children == [] then 1
    else Sum(seq(|e.children|, j requires 0 <= j < |e.children| => Writes(e.children[j])))
  }

  /* The map holds exactly what paths address */

  /** The written form of `p` below `path`. */
  function Key(path: string, p: Path): string
    decreases |p|
  {
    if p == [] then path else Key(ChildPath(path, p[0]), p[1..])
  }

  lemma Regroup(path: string, seg: string, rest: string)
    ensures path + "/" + seg + rest == path + ("/" + (seg + rest))
  {
  }

  lemma {:induction false} KeyText(path: string, p: Path)
    ensures Key(path, p) == path + PathText(p)
    decreases |p|
  {
    if p != [] {
      KeyText(ChildPath(path, p[0]), p[1..]);
      Regroup(path, SegText(p[0]), PathText(p[1..]));
    }
  }

  lemma KeyInjective(path: string, e: Element, p: Path, q: Path)
    requires WellFormed(e) && Lookup(e, p).Some? && Lookup(e, q).Some?
    requires Key(path, p) == Key(path, q)
    ensures p == q
  {
    LookupIsValid(e, p);
    LookupIsValid(e, q);
    KeyValidInjective(path, p, q);
  }

  lemma KeyValidInjective(path: string, p: Path, q: Path)
    requires ValidPath(p) && ValidPath(q) && Key(path, p) == Key(path, q)
    ensures p == q
  {
    KeyText(path, p);
    KeyText(path, q);
    assert Key(path, p)[|path|..] == PathText(p);
    assert Key(path, q)[|path|..] == PathText(q);
    PathTextInjective(p, q);
  }

  lemma KeyBelow(path: string, s: Seg, p: Path)
    ensures Key(ChildPath(path, s), p) == Key(path, [s] + p)
  {
    assert ([s] + p)[1..] == p;
  }

  lemma KeyOfAttr(path: string, k: string)
    ensures AttrKey(path, k) == Key(path, [Attr(k)])
  {
    assert [Attr(k)][1..] == [];
    assert path + "/@" + k == path + "/" + ("@" + k);
  }

  lemma KeyOfLeaf(path: string)
    ensures Key(path, []) == path
  {
  }

  /** `k` is the written form, below `path`, of a path that addresses `value` in `e`. */
  ghost predicate Addresses(e: Element, path: string, k: string, value: string) {
    exists p :: k == Key(path, p) && Lookup(e, p) == Some(value)
  }

  /** Every entry of `m` is the value of some path of `e`, written below `path`. */
  ghost predicate Sound(m: map<string, string>, e: Element, path: string) {
    forall k :: k in m ==> Addresses(e, path, k, m[k])
  }

  /** Every path that addresses a value of `e` has a key in `m`. */
  ghost predicate Covers(m: map<string, string>, e: Element, path: string) {
    forall p :: Lookup(e, p).Some? ==> Key(path, p) in m
  }

  lemma SoundValue(m: map<string, string>, e: Element, path: string, p: Path)
    requires WellFormed(e) && Sound(m, e, path) && Lookup(e, p).Some? && Key(path, p) in m
    ensures m[Key(path, p)] == Lookup(e, p).value
  {
    var k := Key(path, p);
    assert Addresses(e, path, k, m[k]);
    var q :| k == Key(path, q) && Lookup(e, q) == Some(m[k]);
    KeyInjective(path, e, p, q);
  }

  lemma SoundUnion(m: map<string, string>, n: map<string, string>, e: Element, path: string)
    requires Sound(m, e, path) && Sound(n, e, path)
    ensures Sound(m + n, e, path)
  {
  }

  /** Reading below child `j`. */
  lemma LookupBelow(e: Element, j: nat, p: Path)
    requires j < |e.children|
    ensures Lookup(e, [SegOf(e.children, j)] + p) == Lookup(e.children[j], p)
  {
    ResolveSegOf(e.children, j);
    assert ([SegOf(e.children, j)] + p)[1..] == p;
  }

  /** The child through which a path of an inner element goes. */
  lemma LookupChild(e: Element, p: Path) returns (j: nat)
    requires Lookup(e, p).Some? && p != [] && p[0].Child?
    ensures j < |e.children| && p == [SegOf(e.children, j)] + p[1..]
    ensures Lookup(e.children[j], p[1..]) == Lookup(e, p)
  {
    j := ResolveIsChild(e.children, p[0]);
  }

  lemma SoundBelow(m: map<string, string>, e: Element, j: nat, path: string)
    requires j < |e.children|
    requires Sound(m, e.children[j], ChildPath(path, SegOf(e.children, j)))
    ensures Sound(m, e, path)
  {
    var c, s := e.children[j], SegOf(e.children, j);
    forall k | k in m ensures Addresses(e, path, k, m[k]) {
      assert Addresses(c, ChildPath(path, s), k, m[k]);
      var p :| k == Key(ChildPath(path, s), p) && Lookup(c, p) == Some(m[k]);
      KeyBelow(path, s, p);
      LookupBelow(e, j, p);
    }
  }

  lemma AttrWritesSound(e: Element, path: string)
    ensures Sound(AttrWrites(e.attrib, path), e, path)
  {
    var m := AttrWrites(e.attrib, path);
    forall key | key in m ensures Addresses(e, path, key, m[key]) {
      var k := AttrWritesFrom(e.attrib, path, key);
      AttrWritesHolds(e.attrib, path, k);
      KeyOfAttr(path, k);
      assert Lookup(e, [Attr(k)]) == Some(m[key]);
    }
  }

  lemma {:induction false} UnionAllKeys(ms: seq<map<string, string>>, k: string)
    ensures k in UnionAll(ms) <==> exists j :: 0 <= j < |ms| && k in ms[j]
  {
    if ms != [] {
      UnionAllKeys(ms[..|ms| - 1], k);
    }
  }

  lemma {:induction false} UnionAllSound(ms: seq<map<string, string>>, e: Element, path: string)
    requires forall j :: 0 <= j < |ms| ==> Sound(ms[j], e, path)
    ensures Sound(UnionAll(ms), e, path)
  {
    if ms != [] {
      UnionAllSound(ms[..|ms| - 1], e, path);
      SoundUnion(UnionAll(ms[..|ms| - 1]), ms[|ms| - 1], e, path);
    }
  }

  lemma {:induction false} WalkSound(e: Element, path: string)
    ensures Sound(Walk(e, path), e, path)
    decreases e
  {
    AttrWritesSound(e, path);
    if e.children == [] {
      var leaf := map[path := LeafText(e)];
      KeyOfLeaf(path);
      assert Lookup(e, []) == Some(leaf[path]);
      assert Addresses(e, path, path, leaf[path]);
      SoundUnion(AttrWrites(e.attrib, path), leaf, e, path);
    } else {
      forall j | 0 <= j < |e.children| ensures Sound(Below(e, path)[j], e, path) {
        WalkSound(e.children[j], ChildPath(path, SegOf(e.children, j)));
        SoundBelow(Below(e, path)[j], e, j, path);
      }
      UnionAllSound(Below(e, path), e, path);
      SoundUnion(AttrWrites(e.attrib, path), UnionAll(Below(e, path)), e, path);
      WalkInner(e, path);
    }
  }

  lemma {:induction false} WalkCovers(e: Element, path: string, p: Path)
    requires Lookup(e, p).Some?
    ensures Key(path, p) in Walk(e, path)
    decreases |p|
  {
    if p == [] {
      KeyOfLeaf(path);
    } else if p[0].Attr? {
      KeyOfAttr(path, p[0].name);
      assert p == [Attr(p[0].name)];
      AttrWritesHolds(e.attrib, path, p[0].name);
    } else {
      var j := LookupChild(e, p);
      var s := SegOf(e.children, j);
      WalkCovers(e.children[j], ChildPath(path, s), p[1..]);
      KeyBelow(path, s, p[1..]);
      assert Key(path, p) in Below(e, path)[j];
      UnionAllKeys(Below(e, path), Key(path, p));
      WalkInner(e, path);
    }
  }

  /* No path is written twice */

  /** A key written below child `j` starts with that child's segment. */
  lemma KeyThrough(e: Element, j: nat, path: string, k: string) returns (p: Path)
    requires j < |e.children|
    requires k in Below(e, path)[j]
    ensures k == Key(path, [SegOf(e.children, j)] + p)
    ensures Lookup(e, [SegOf(e.children, j)] + p).Some?
  {
    var c, s := e.children[j], SegOf(e.children, j);
    var m := Walk(c, ChildPath(path, s));
    WalkSound(c, ChildPath(path, s));
    assert Addresses(c, ChildPath(path, s), k, m[k]);
    p :| k == Key(ChildPath(path, s), p) && Lookup(c, p) == Some(m[k]);
    KeyBelow(path, s, p);
    LookupBelow(e, j, p);
  }

  lemma SiblingsApart(e: Element, i: nat, j: nat, path: string, k: string)
    requires WellFormed(e) && i < |e.children| && j < |e.children|
    requires k in Below(e, path)[i] && k in Below(e, path)[j]
    ensures i == j
  {
    var p := KeyThrough(e, i, path, k);
    var q := KeyThrough(e, j, path, k);
    var ip, jq := [SegOf(e.children, i)] + p, [SegOf(e.children, j)] + q;
    KeyInjective(path, e, ip, jq);
    assert ip[0] == jq[0];
    SegOfInjective(e.children, i, j);
  }

  lemma AttrsApart(e: Element, path: string, k: string)
    requires WellFormed(e) && k in UnionAll(Below(e, path))
    ensures k !in AttrWrites(e.attrib, path)
  {
    UnionAllKeys(Below(e, path), k);
    var j :| 0 <= j < |e.children| && k in Below(e, path)[j];
    var p := KeyThrough(e, j, path, k);
    if k in AttrWrites(e.attrib, path) {
      var name := AttrWritesFrom(e.attrib, path, k);
      KeyOfAttr(path, name);
      assert Lookup(e, [Attr(name)]).Some?;
      KeyInjective(path, e, [SegOf(e.children, j)] + p, [Attr(name)]);
    }
  }

  lemma UnionSize(m: map<string, string>, n: map<string, string>)
    requires m.Keys !! n.Keys
    ensures |m + n| == |m| + |n|
  {
    assert (m + n).Keys == m.Keys + n.Keys;
  }

  lemma {:induction false} UnionAllSize(ms: seq<map<string, string>>, sizes: seq<nat>)
    requires |ms| == |sizes| && forall j :: 0 <= j < |ms| ==> |ms[j]| == sizes[j]
    requires forall i, j :: 0 <= i < j < |ms| ==> ms[i].Keys !! ms[j].Keys
    ensures |UnionAll(ms)| == Sum(sizes)
  {
    if ms != [] {
      var front := ms[..|ms| - 1];
      UnionAllSize(front, sizes[..|ms| - 1]);
      forall k | k in UnionAll(front) ensures k !in ms[|ms| - 1] {
        UnionAllKeys(front, k);
        var j :| 0 <= j < |front| && k in front[j];
        assert ms[j].Keys !! ms[|ms| - 1].Keys;
      }
      UnionSize(UnionAll(front), ms[|ms| - 1]);
    }
  }

  lemma BelowApart(e: Element, path: string, i: nat, j: nat)
    requires WellFormed(e) && i < j < |e.children|
    ensures Below(e, path)[i].Keys !! Below(e, path)[j].Keys
  {
    var below := Below(e, path);
    forall k | k in below[i] ensures k !in below[j] {
      if k in below[j] {
        SiblingsApart(e, i, j, path, k);
      }
    }
  }

  lemma WalkLeafCount(e: Element, path: string)
    requires e.children == []
    ensures |Walk(e, path)| == Writes(e)
  {
    var attrs := AttrWrites(e.attrib, path);
    AttrWritesCount(e.attrib, path);
    if path in attrs {
      var name := AttrWritesFrom(e.attrib, path, path);
    }
    UnionSize(attrs, map[path := LeafText(e)]);
  }

  lemma WalkInnerCount(e: Element, path: string, sizes: seq<nat>)
    requires WellFormed(e) && e.children != [] && |sizes| == |e.children|
    requires forall j :: 0 <= j < |e.children| ==> |Below(e, path)[j]| == sizes[j]
    ensures |Walk(e, path)| == |e.attrib| + Sum(sizes)
  {
    var attrs, below := AttrWrites(e.attrib, path), Below(e, path);
    AttrWritesCount(e.attrib, path);
    forall i, j | 0 <= i < j < |below| ensures below[i].Keys !! below[j].Keys {
      BelowApart(e, path, i, j);
    }
    UnionAllSize(below, sizes);
    forall k | k in UnionAll(below) ensures k !in attrs {
      AttrsApart(e, path, k);
    }
    UnionSize(attrs, UnionAll(below));
    WalkInner(e, path);
  }

  lemma {:induction false} WalkCount(e: Element, path: string)
    requires WellFormed(e)
    ensures |Walk(e, path)| == Writes(e)
    decreases e
  {
    if e.children == [] {
      WalkLeafCount(e, path);
    } else {
      var sizes := seq(|e.children|, j requires 0 <= j < |e.children| => Writes(e.children[j]));
      forall j | 0 <= j < |e.children| ensures |Below(e, path)[j]| == sizes[j] {
        assert e.children[j] in e.children;
        WalkCount(e.children[j], ChildPath(path, SegOf(e.children, j)));
      }
      WalkInnerCount(e, path, sizes);
    }
  }

  /** No path is written twice: the map ends with as many entries as `walk` makes assignments. */
  lemma NoPathWrittenTwice(xml: Element)
    requires WellFormed(xml)
    ensures |Flatten(xml)| == Writes(StripVolatile(xml))
  {
    StripVolatileKeepsForm(xml);
    WalkCount(StripVolatile(xml), xml.tag);
  }

  /* Flattening is faithful */

  lemma SameWalkSameLookups(a: Element, b: Element, p: Path)
    requires WellFormed(a) && WellFormed(b) && a.tag == b.tag && Walk(a, a.tag) == Walk(b, b.tag)
    requires Lookup(a, p).Some?
    ensures Lookup(b, p) == Lookup(a, p)
  {
    var m, k := Walk(a, a.tag), Key(a.tag, p);
    WalkSound(a, a.tag);
    WalkSound(b, b.tag);
    WalkCovers(a, a.tag, p);
    SoundValue(m, a, a.tag, p);
    assert Addresses(b, b.tag, k, m[k]);
    var q :| k == Key(b.tag, q) && Lookup(b, q) == Some(m[k]);
    LookupIsValid(a, p);
    LookupIsValid(b, q);
    KeyValidInjective(a.tag, p, q);
  }

  lemma SameWalkSameTag(a: Element, b: Element)
    requires WellFormed(a) && WellFormed(b) && Walk(a, a.tag) == Walk(b, b.tag)
    ensures a.tag == b.tag
  {
    var p := SomeLookup(a);
    var m, k := Walk(a, a.tag), Key(a.tag, p);
    WalkCovers(a, a.tag, p);
    WalkSound(b, b.tag);
    assert Addresses(b, b.tag, k, m[k]);
    var q :| k == Key(b.tag, q) && Lookup(b, q) == Some(m[k]);
    RootOfKey(a.tag, p, b.tag, q);
  }

  lemma RootOfKey(tag: string, p: Path, tag': string, q: Path)
    requires ValidName(tag) && ValidName(tag') && Key(tag, p) == Key(tag', q)
    ensures tag == tag'
  {
    KeyText(tag, p);
    KeyText(tag', q);
    CutUnique(tag, PathText(p), tag', PathText(q), '/');
  }

  lemma EquivalentWalksInto(a: Element, b: Element, k: string)
    requires WellFormed(b) && Equivalent(a, b) && k in Walk(a, a.tag)
    ensures k in Walk(b, b.tag) && Walk(b, b.tag)[k] == Walk(a, a.tag)[k]
  {
    var m := Walk(a, a.tag);
    WalkSound(a, a.tag);
    assert Addresses(a, a.tag, k, m[k]);
    var p :| k == Key(a.tag, p) && Lookup(a, p) == Some(m[k]);
    EquivalentLooksSame(a, b, p);
    WalkCovers(b, b.tag, p);
    WalkSound(b, b.tag);
    SoundValue(Walk(b, b.tag), b, b.tag, p);
  }

  /** Two documents flatten to one map exactly when, without their volatile nodes, they are equal up
      to the order of differently tagged siblings, text around children and whitespace at the edges
      of leaf text. */
  lemma FlattenFaithful(a: Element, b: Element)
    requires WellFormed(a) && WellFormed(b)
    ensures Flatten(a) == Flatten(b) <==> Equivalent(StripVolatile(a), StripVolatile(b))
  {
    var sa, sb := StripVolatile(a), StripVolatile(b);
    StripVolatileKeepsForm(a);
    StripVolatileKeepsForm(b);
    if Walk(sa, sa.tag) == Walk(sb, sb.tag) {
      SameWalkSameTag(sa, sb);
      forall p ensures Lookup(sa, p) == Lookup(sb, p) {
        if Lookup(sa, p).Some? {
          SameWalkSameLookups(sa, sb, p);
        } else if Lookup(sb, p).Some? {
          SameWalkSameLookups(sb, sa, p);
        }
      }
      LookupsDetermine(sa, sb);
    }
    if Equivalent(sa, sb) {
      EquivalentSymmetric(sa, sb);
      var ma, mb := Walk(sa, sa.tag), Walk(sb, sb.tag);
      forall k ensures k in ma <==> k in mb
               ensures k in ma ==> ma[k] == mb[k]
      {
        if k in ma {
          EquivalentWalksInto(sa, sb, k);
        }
        if k in mb {
          EquivalentWalksInto(sb, sa, k);
        }
      }
      assert ma == mb;
    }
  }

  /** The flattened map holds every leaf's text, without the spaces at its ends and otherwise as it is. */
  lemma FlattenTrims(xml: Element, p: Path, a: string, x: string, b: string)
    requires WellFormed(xml) && AllIn(a, SPACES) && AllIn(b, SPACES) && Edged(x, SPACES)
    requires var leaf := ElementAt(StripVolatile(xml), p);
             leaf.Some? && leaf.value.children == [] && leaf.value.text == Some(a + x + b)
    ensures Key(xml.tag, p) in Flatten(xml) && Flatten(xml)[Key(xml.tag, p)] == x
  {
    var root := StripVolatile(xml);
    StripVolatileKeepsForm(xml);
    assert Trimmed(a + x + b, x);
    LookupTrims(root, p, x);
    WalkCovers(root, root.tag, p);
    WalkSound(root, root.tag);
    SoundValue(Walk(root, root.tag), root, root.tag, p);
  }

  lemma {:induction false} EquivalentSymmetric(a: Element, b: Element)
    requires Equivalent(a, b)
    ensures Equivalent(b, a)
    decreases a
  {
    forall tag, i | 0 <= i < Count(b.children, tag) && i < Count(a.children, tag)
      ensures Equivalent(WithTag(b.children, tag)[i], WithTag(a.children, tag)[i])
    {
      WithTagMember(a.children, tag, i);
      EquivalentSymmetric(WithTag(a.children, tag)[i], WithTag(b.children, tag)[i]);
    }
  }
}

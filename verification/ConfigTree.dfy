/** The parsed config.xml document, and how an indexed path addresses a value in it. */
module ConfigTree {
  import opened Strings

  /** An element as the XML parser hands it over. `text` is the text before the first child. */
  datatype Element = Element(
    tag: string,
    attrib: map<string, string>,
    text: Option<string>,
    children: seq<Element>)

  /** What the `Name` production of XML 1.0 (section 2.3) leaves out of tags and attribute names,
      and what the path notation relies on. */
  predicate ValidName(s: string) {
    s != "" && '/' !in s && '[' !in s && ']' !in s && '@' !in s && '=' !in s && '\n' !in s
  }

  ghost predicate WellFormed(e: Element) {
    && ValidName(e.tag)
    && (forall k :: k in e.attrib ==> ValidName(k))
    && (forall c :: c in e.children ==> WellFormed(c))
  }

  /* Leaf text: `(elem.text or "").strip()` */

  /** The characters that `str.strip` takes away. */
  const SPACES: set<char> := {
    '\t', '\n', '\U{B}', '\U{C}', '\r', '\U{1C}', '\U{1D}', '\U{1E}', '\U{1F}', ' ', '\U{85}', '\U{A0}', '\U{1680}',
    '\U{2000}', '\U{2001}', '\U{2002}', '\U{2003}', '\U{2004}', '\U{2005}', '\U{2006}', '\U{2007}', '\U{2008}',
    '\U{2009}', '\U{200A}', '\U{2028}', '\U{2029}', '\U{202F}', '\U{205F}', '\U{3000}'}

  /** The first position from `i` on whose character is not in `cs`. */
  function SkipLeft(s: string, cs: set<char>, i: nat): (r: nat)
    requires i <= |s|
    ensures i <= r <= |s| && (r < |s| ==> s[r] !in cs) && forall k :: i <= k < r ==> s[k] in cs
    decreases |s| - i
  {
    if i < |s| && s[i] in cs then SkipLeft(s, cs, i + 1) else i
  }

  /** The position, not before `i`, from which up to `j` all characters are in `cs`. */
  function SkipRight(s: string, cs: set<char>, i: nat, j: nat): (r: nat)
    requires i <= j <= |s|
    ensures i <= r <= j && (i < r ==> s[r - 1] !in cs) && forall k :: r <= k < j ==> s[k] in cs
    decreases j
  {
    if i < j && s[j - 1] in cs then SkipRight(s, cs, i, j - 1) else j
  }

  function StripOf(s: string, cs: set<char>): string {
    var i := SkipLeft(s, cs, 0);
    s[i..SkipRight(s, cs, i, |s|)]
  }

  function Strip(s: string): string {
    StripOf(s, SPACES)
  }

  ghost predicate AllIn(s: string, cs: set<char>) {
    forall i :: 0 <= i < |s| ==> s[i] in cs
  }

  /** Empty, or without a character of `cs` at either end. */
  predicate Edged(s: string, cs: set<char>) {
    s == "" || (s[0] !in cs && s[|s| - 1] !in cs)
  }

  /** `x` is what is left of `s` without the spaces at its ends. */
  ghost predicate Trimmed(s: string, x: string) {
    Edged(x, SPACES) && exists a, b :: AllIn(a, SPACES) && AllIn(b, SPACES) && s == a + x + b
  }

  /** Stripping takes characters away at the ends, and all of them. */
  lemma StripTrims(s: string, cs: set<char>) returns (a: string, b: string)
    ensures AllIn(a, cs) && AllIn(b, cs) && s == a + StripOf(s, cs) + b && Edged(StripOf(s, cs), cs)
  {
    var i := SkipLeft(s, cs, 0);
    var j := SkipRight(s, cs, i, |s|);
    a, b := s[..i], s[j..];
    CutInThree(s, cs, i, j);
  }

  lemma CutInThree(s: string, cs: set<char>, i: nat, j: nat)
    requires i <= j <= |s| && (i < j ==> s[i] !in cs && s[j - 1] !in cs)
    requires (forall k :: 0 <= k < i ==> s[k] in cs) && (forall k :: j <= k < |s| ==> s[k] in cs)
    ensures AllIn(s[..i], cs) && AllIn(s[j..], cs) && s == s[..i] + s[i..j] + s[j..] && Edged(s[i..j], cs)
  {
  }

  /** Two ways to cut characters off the front, up to one that is not to go, cut the same. */
  lemma FrontUnique(s: string, cs: set<char>, i: nat, k: nat)
    requires i < |s| && k < |s| && s[i] !in cs && s[k] !in cs
    requires (forall j :: 0 <= j < i ==> s[j] in cs) && (forall j :: 0 <= j < k ==> s[j] in cs)
    ensures i == k
  {
  }

  lemma BackUnique(s: string, cs: set<char>, i: nat, k: nat)
    requires 0 < i <= |s| && 0 < k <= |s| && s[i - 1] !in cs && s[k - 1] !in cs
    requires (forall j :: i <= j < |s| ==> s[j] in cs) && (forall j :: k <= j < |s| ==> s[j] in cs)
    ensures i == k
  {
  }

  lemma CutAt(s: string, cs: set<char>, a: string, x: string, b: string)
    requires s == a + x + b && x != "" && Edged(x, cs) && AllIn(a, cs) && AllIn(b, cs)
    ensures |a| + |x| <= |s| && s[|a|..|a| + |x|] == x && s[|a|] !in cs && s[|a| + |x| - 1] !in cs
    ensures forall j :: 0 <= j < |a| ==> s[j] in cs
    ensures forall j :: |a| + |x| <= j < |s| ==> s[j] in cs
  {
    assert s[|a|] == x[0] && s[|a| + |x| - 1] == x[|x| - 1];
  }

  /** Two ways to cut the ends off leave the same. */
  lemma TrimUnique(s: string, cs: set<char>, a: string, x: string, b: string, c: string, y: string, d: string)
    requires AllIn(a, cs) && AllIn(b, cs) && AllIn(c, cs) && AllIn(d, cs) && Edged(x, cs) && Edged(y, cs)
    requires s == a + x + b && s == c + y + d
    ensures x == y
  {
    if x != "" {
      CutAt(s, cs, a, x, b);
      if y != "" {
        CutAt(s, cs, c, y, d);
        FrontUnique(s, cs, |a|, |c|);
        BackUnique(s, cs, |a| + |x|, |c| + |y|);
      }
    } else if y != "" {
      CutAt(s, cs, c, y, d);
    }
  }

  lemma StripUnique(s: string, cs: set<char>, a: string, x: string, b: string)
    requires AllIn(a, cs) && AllIn(b, cs) && Edged(x, cs) && s == a + x + b
    ensures x == StripOf(s, cs)
  {
    var c, d := StripTrims(s, cs);
    TrimUnique(s, cs, a, x, b, c, StripOf(s, cs), d);
  }

  /** So there is one such remainder, and stripping gives it. */
  lemma StripExactly(s: string, x: string)
    ensures Trimmed(s, x) <==> x == Strip(s)
  {
    var c, d := StripTrims(s, SPACES);
    if Trimmed(s, x) {
      var a, b :| AllIn(a, SPACES) && AllIn(b, SPACES) && s == a + x + b;
      StripUnique(s, SPACES, a, x, b);
    }
  }

  function LeafText(e: Element): string {
    match e.text
    case None => Strip("")
    case Some(t) => Strip(t)
  }

  /** The texts of two leaves that differ at most in spaces at the ends; no text is the empty text. */
  ghost predicate SameText(a: Option<string>, b: Option<string>) {
    exists x :: Trimmed(TextOf(a), x) && Trimmed(TextOf(b), x)
  }

  function TextOf(text: Option<string>): string {
    if text.Some? then text.value else ""
  }

  lemma SameTextExactly(a: Element, b: Element)
    ensures SameText(a.text, b.text) <==> LeafText(a) == LeafText(b)
  {
    StripExactly(TextOf(a.text), LeafText(a));
    StripExactly(TextOf(b.text), LeafText(b));
    forall x | Trimmed(TextOf(a.text), x) && Trimmed(TextOf(b.text), x) ensures LeafText(a) == LeafText(b) {
      StripExactly(TextOf(a.text), x);
      StripExactly(TextOf(b.text), x);
    }
  }

  /* Volatile metadata: top-level nodes rewritten on every save */

  const VOLATILE_TAGS: set<string> := {"revision"}

  function DropVolatile(cs: seq<Element>): (r: seq<Element>) {
    if cs == [] then []
    else if cs[|cs| - 1].tag in VOLATILE_TAGS then DropVolatile(cs[..|cs| - 1])
    else DropVolatile(cs[..|cs| - 1]) + [cs[|cs| - 1]]
  }

  function StripVolatile(root: Element): Element {
    root.(children := DropVolatile(root.children))
  }

  lemma {:induction false} DropVolatileKeeps(cs: seq<Element>, c: Element)
    ensures c in DropVolatile(cs) <==> c in cs && c.tag !in VOLATILE_TAGS
  {
    if cs != [] {
      DropVolatileKeeps(cs[..|cs| - 1], c);
      assert cs == cs[..|cs| - 1] + [cs[|cs| - 1]];
    }
  }

  lemma StripVolatileKeepsForm(root: Element)
    requires WellFormed(root)
    ensures WellFormed(StripVolatile(root))
  {
    forall c | c in StripVolatile(root).children ensures WellFormed(c) {
      DropVolatileKeeps(root.children, c);
    }
  }

  /* Siblings with one tag */

  function WithTag(cs: seq<Element>, tag: string): seq<Element> {
    if cs == [] then []
    else
      var last := cs[|cs| - 1];
      WithTag(cs[..|cs| - 1], tag) + (if last.tag == tag then [last] else [])
  }

  lemma {:induction false} WithTagMember(cs: seq<Element>, tag: string, i: nat)
    requires i < |WithTag(cs, tag)|
    ensures WithTag(cs, tag)[i] in cs && WithTag(cs, tag)[i].tag == tag
  {
    var front := cs[..|cs| - 1];
    if i < |WithTag(front, tag)| {
      WithTagMember(front, tag, i);
    }
  }

  function Count(cs: seq<Element>, tag: string): nat {
    |WithTag(cs, tag)|
  }

  /** How many of the first `n` carry the tag. */
  function Rank(cs: seq<Element>, n: nat, tag: string): (r: nat)
    requires n <= |cs|
  {
    if n == 0 then 0 else Rank(cs, n - 1, tag) + if cs[n - 1].tag == tag then 1 else 0
  }

  lemma {:induction false} RankIsCount(cs: seq<Element>, n: nat, tag: string)
    requires n <= |cs|
    ensures Rank(cs, n, tag) == Count(cs[..n], tag)
    decreases n
  {
    if n > 0 {
      RankIsCount(cs, n - 1, tag);
      assert cs[..n][..n - 1] == cs[..n - 1];
    }
  }

  /** Child `j` is the `Rank(cs, j + 1, tag)`-th of the siblings that share its tag. */
  lemma {:induction false} WithTagAt(cs: seq<Element>, j: nat)
    requires j < |cs|
    ensures 1 <= Count(cs[..j + 1], cs[j].tag) <= Count(cs, cs[j].tag)
    ensures WithTag(cs, cs[j].tag)[Count(cs[..j + 1], cs[j].tag) - 1] == cs[j]
    ensures Rank(cs, |cs|, cs[j].tag) == Count(cs, cs[j].tag)
    ensures Rank(cs, j + 1, cs[j].tag) == Count(cs[..j + 1], cs[j].tag)
  {
    RankIsCount(cs, |cs|, cs[j].tag);
    RankIsCount(cs, j + 1, cs[j].tag);
    assert cs[..|cs|] == cs;
    if j < |cs| - 1 {
      var front := cs[..|cs| - 1];
      WithTagAt(front, j);
      assert front[..j + 1] == cs[..j + 1];
    }
  }

  lemma {:induction false} WithTagIndex(cs: seq<Element>, tag: string, i: nat) returns (j: nat)
    requires i < Count(cs, tag)
    ensures j < |cs| && cs[j].tag == tag
    ensures Count(cs[..j + 1], tag) == i + 1
    ensures WithTag(cs, tag)[i] == cs[j]
  {
    var front, last := cs[..|cs| - 1], cs[|cs| - 1];
    if i < Count(front, tag) {
      j := WithTagIndex(front, tag, i);
      assert front[..j + 1] == cs[..j + 1];
    } else {
      j := |cs| - 1;
      assert cs[..j + 1] == cs;
    }
  }

  /* Indexed paths */

  /** One step of a path. Index 0 names the only child with its tag; index i >= 1 names the i-th of
      several. */
  datatype Seg = Child(tag: string, index: nat) | Attr(name: string)

  type Path = seq<Seg>

  function SegOf(cs: seq<Element>, j: nat): Seg
    requires j < |cs|
  {
    if Rank(cs, |cs|, cs[j].tag) == 1 then Child(cs[j].tag, 0)
    else Child(cs[j].tag, Rank(cs, j + 1, cs[j].tag))
  }

  lemma SegOfInjective(cs: seq<Element>, i: nat, j: nat)
    requires i < |cs| && j < |cs| && SegOf(cs, i) == SegOf(cs, j)
    ensures i == j
  {
    var tag := cs[i].tag;
    WithTagAt(cs, i);
    WithTagAt(cs, j);
    if i < j {
      CountGrows(cs, i, j);
    } else if j < i {
      CountGrows(cs, j, i);
    }
  }

  /** Two siblings with one tag have different positions among their namesakes. */
  lemma CountGrows(cs: seq<Element>, i: nat, j: nat)
    requires i < j < |cs| && cs[i].tag == cs[j].tag
    ensures 1 <= Count(cs[..i + 1], cs[i].tag) < Count(cs[..j + 1], cs[j].tag) <= Count(cs, cs[j].tag)
  {
    WithTagAt(cs, j);
    var upto := cs[..j + 1];
    var front := upto[..|upto| - 1];
    assert front == cs[..j];
    WithTagAt(front, i);
    assert front[..i + 1] == cs[..i + 1];
  }

  function IndexText(index: nat): string {
    "[" + Decimal(index) + "]"
  }

  lemma IndexTextChars(index: nat)
    ensures IndexText(index) != "" && IndexText(index)[0] == '['
    ensures forall c :: c in IndexText(index) ==> c == '[' || c == ']' || '0' <= c <= '9'
  {
  }

  lemma IndexTextInjective(m: nat, n: nat)
    requires IndexText(m) == IndexText(n)
    ensures m == n
  {
    var s := IndexText(m);
    assert s[1..|s| - 1] == Decimal(m) && s[1..|s| - 1] == Decimal(n);
    DecimalInjective(m, n);
  }

  function SegText(s: Seg): string {
    match s
    case Child(tag, index) => if index == 0 then tag else tag + IndexText(index)
    case Attr(name) => "@" + name
  }

  function PathText(p: Path): string {
    if p == [] then "" else "/" + (SegText(p[0]) + PathText(p[1..]))
  }

  predicate ValidSeg(s: Seg) {
    match s
    case Child(tag, _) => ValidName(tag)
    case Attr(name) => ValidName(name)
  }

  ghost predicate ValidPath(p: Path) {
    forall s :: s in p ==> ValidSeg(s)
  }

  lemma SegTextChars(s: Seg)
    requires ValidSeg(s)
    ensures '/' !in SegText(s) && '=' !in SegText(s) && '\n' !in SegText(s)
    ensures '@' in SegText(s) <==> s.Attr?
  {
    if s.Child? {
      IndexTextChars(s.index);
      assert forall c :: c in SegText(s) ==> c in s.tag || (s.index != 0 && c in IndexText(s.index));
    } else {
      assert SegText(s)[0] == '@';
      assert forall c :: c in SegText(s) ==> c == '@' || c in s.name;
    }
  }

  lemma SegTextInjective(s: Seg, t: Seg)
    requires ValidSeg(s) && ValidSeg(t) && SegText(s) == SegText(t)
    ensures s == t
  {
    SegTextChars(s);
    SegTextChars(t);
    if s.Attr? {
      assert SegText(s)[1..] == s.name && SegText(t)[1..] == t.name;
    } else {
      IndexTextChars(s.index);
      IndexTextChars(t.index);
      var ds, dt := if s.index == 0 then "" else IndexText(s.index), if t.index == 0 then "" else IndexText(t.index);
      assert s.tag + ds == t.tag + dt;
      CutUnique(s.tag, ds, t.tag, dt, '[');
      if s.index != 0 {
        IndexTextInjective(s.index, t.index);
      }
    }
  }

  lemma PathTextSplits(p: Path)
    requires p != []
    ensures PathText(p)[1..] == SegText(p[0]) + PathText(p[1..])
    ensures PathText(p[1..]) == "" || PathText(p[1..])[0] == '/'
  {
  }

  /** Different paths are written differently. */
  lemma {:induction false} PathTextInjective(p: Path, q: Path)
    requires ValidPath(p) && ValidPath(q) && PathText(p) == PathText(q)
    ensures p == q
  {
    if p != [] && q != [] {
      SegTextChars(p[0]);
      SegTextChars(q[0]);
      PathTextSplits(p);
      PathTextSplits(q);
      CutUnique(SegText(p[0]), PathText(p[1..]), SegText(q[0]), PathText(q[1..]), '/');
      SegTextInjective(p[0], q[0]);
      PathTextInjective(p[1..], q[1..]);
      assert p == [p[0]] + p[1..] && q == [q[0]] + q[1..];
    }
  }

  lemma {:induction false} PathTextChars(p: Path)
    requires ValidPath(p)
    ensures '=' !in PathText(p) && '\n' !in PathText(p)
    ensures '@' in PathText(p) <==> exists i :: 0 <= i < |p| && p[i].Attr?
  {
    if p != [] {
      SegTextChars(p[0]);
      PathTextChars(p[1..]);
      assert forall i :: 0 <= i < |p[1..]| ==> p[1..][i] == p[i + 1];
    }
  }

  /* Address resolution: the reference meaning of a path */

  function Resolve(cs: seq<Element>, s: Seg): Option<Element> {
    match s
    case Attr(_) => None
    case Child(tag, index) =>
      var named := WithTag(cs, tag);
      if index == 0 then (if |named| == 1 then Some(named[0]) else None)
      else if 2 <= |named| && index <= |named| then Some(named[index - 1])
      else None
  }

  /** The value a path addresses: an attribute, or the stripped text of a childless element. */
  function Lookup(e: Element, p: Path): Option<string>
    decreases |p|
  {
    if p == [] then (if e.children == [] then Some(LeafText(e)) else None)
    else if p[0].Attr? then
      if |p| == 1 && p[0].name in e.attrib then Some(e.attrib[p[0].name]) else None
    else
      match Resolve(e.children, p[0])
      case None => None
      case Some(c) => Lookup(c, p[1..])
  }

  lemma ResolveSegOf(cs: seq<Element>, j: nat)
    requires j < |cs|
    ensures Resolve(cs, SegOf(cs, j)) == Some(cs[j])
  {
    WithTagAt(cs, j);
  }

  lemma ResolveIsChild(cs: seq<Element>, s: Seg) returns (j: nat)
    requires Resolve(cs, s).Some?
    ensures j < |cs| && SegOf(cs, j) == s && cs[j] == Resolve(cs, s).value
  {
    j := WithTagIndex(cs, s.tag, if s.index == 0 then 0 else s.index - 1);
    WithTagAt(cs, j);
  }

  /** The element a path of child steps leads to. */
  function ElementAt(e: Element, p: Path): Option<Element>
    decreases |p|
  {
    if p == [] then Some(e)
    else
      match Resolve(e.children, p[0])
      case None => None
      case Some(c) => ElementAt(c, p[1..])
  }

  /** A path of child steps addresses a value exactly when it leads to a leaf. */
  lemma {:induction false} LookupAtLeaf(e: Element, p: Path)
    requires forall i :: 0 <= i < |p| ==> p[i].Child?
    ensures Lookup(e, p).Some? <==> ElementAt(e, p).Some? && ElementAt(e, p).value.children == []
    decreases |p|
  {
    if p != [] && Resolve(e.children, p[0]).Some? {
      LookupAtLeaf(Resolve(e.children, p[0]).value, p[1..]);
    }
  }

  /** What a path addresses at a leaf: its text without the spaces at the ends. */
  lemma {:induction false} LookupTrims(e: Element, p: Path, x: string)
    requires ElementAt(e, p).Some? && ElementAt(e, p).value.children == []
    ensures Lookup(e, p) == Some(x) <==> Trimmed(TextOf(ElementAt(e, p).value.text), x)
    decreases |p|
  {
    if p == [] {
      StripExactly(TextOf(e.text), x);
    } else {
      LookupTrims(Resolve(e.children, p[0]).value, p[1..], x);
    }
  }

  lemma {:induction false} LookupIsValid(e: Element, p: Path)
    requires WellFormed(e) && Lookup(e, p).Some?
    ensures ValidPath(p)
    ensures forall i :: 0 <= i < |p| && p[i].Attr? ==> i == |p| - 1
    decreases |p|
  {
    if p != [] && p[0].Child? {
      var j := ResolveIsChild(e.children, p[0]);
      assert e.children[j] in e.children;
      LookupIsValid(e.children[j], p[1..]);
      assert p == [p[0]] + p[1..];
    }
  }

  /* When two documents say the same */

  /** Equal up to the order of siblings with different tags, text around children, and whitespace
      at the edges of leaf text. Siblings with one tag correspond in order. */
  ghost predicate Equivalent(a: Element, b: Element)
    decreases a
  {
    && a.tag == b.tag
    && a.attrib == b.attrib
    && (a.children == [] <==> b.children == [])
    && (a.children == [] ==> SameText(a.text, b.text))
    && (forall tag :: Count(a.children, tag) == Count(b.children, tag))
    && (forall tag, i :: 0 <= i < Count(a.children, tag) && i < Count(b.children, tag) ==>
          (WithTagMember(a.children, tag, i);
           Equivalent(WithTag(a.children, tag)[i], WithTag(b.children, tag)[i])))
  }

  ghost predicate SameLookups(a: Element, b: Element) {
    forall p :: Lookup(a, p) == Lookup(b, p)
  }

  lemma {:induction false} EquivalentLooksSame(a: Element, b: Element, p: Path)
    requires Equivalent(a, b)
    ensures Lookup(a, p) == Lookup(b, p)
    decreases |p|
  {
    SameTextExactly(a, b);
    if p != [] && p[0].Child? {
      var s := p[0];
      var i := if s.index == 0 then 0 else s.index - 1;
      if Resolve(a.children, s).Some? {
        assert Equivalent(WithTag(a.children, s.tag)[i], WithTag(b.children, s.tag)[i]);
        EquivalentLooksSame(WithTag(a.children, s.tag)[i], WithTag(b.children, s.tag)[i], p[1..]);
      }
    }
  }

  /** Every element holds at least one value. */
  lemma {:induction false} SomeLookup(e: Element) returns (p: Path)
    ensures Lookup(e, p).Some?
  {
    if e.children == [] {
      p := [];
    } else {
      var q := SomeLookup(e.children[0]);
      ResolveSegOf(e.children, 0);
      p := [SegOf(e.children, 0)] + q;
      assert p[1..] == q;
    }
  }

  /** A child that resolves in one document resolves in every document with the same lookups. */
  lemma ResolveSame(a: Element, b: Element, s: Seg)
    requires SameLookups(a, b) && Resolve(a.children, s).Some?
    ensures Resolve(b.children, s).Some?
    ensures SameLookups(Resolve(a.children, s).value, Resolve(b.children, s).value)
  {
    var ca := Resolve(a.children, s).value;
    var q := SomeLookup(ca);
    assert ([s] + q)[1..] == q;
    assert Lookup(a, [s] + q) == Lookup(ca, q);
    assert Lookup(b, [s] + q).Some?;
    forall p ensures Lookup(ca, p) == Lookup(Resolve(b.children, s).value, p) {
      assert ([s] + p)[1..] == p;
      assert Lookup(a, [s] + p) == Lookup(b, [s] + p);
    }
  }

  lemma CountFromLookups(a: Element, b: Element, tag: string)
    requires SameLookups(a, b)
    ensures Count(a.children, tag) <= Count(b.children, tag)
  {
    var n := Count(a.children, tag);
    if n == 1 {
      ResolveSame(a, b, Child(tag, 0));
    } else if n >= 2 {
      ResolveSame(a, b, Child(tag, n));
    }
  }

  lemma {:induction false} LookupsDetermine(a: Element, b: Element)
    requires a.tag == b.tag && SameLookups(a, b)
    ensures Equivalent(a, b)
  {
    assert Lookup(a, []) == Lookup(b, []);
    SameTextExactly(a, b);
    forall k ensures k in a.attrib <==> k in b.attrib
             ensures k in a.attrib ==> a.attrib[k] == b.attrib[k]
    {
      assert Lookup(a, [Attr(k)]) == Lookup(b, [Attr(k)]);
    }
    assert a.attrib == b.attrib;
    forall tag ensures Count(a.children, tag) == Count(b.children, tag) {
      CountFromLookups(a, b, tag);
      CountFromLookups(b, a, tag);
    }
    forall tag, i | 0 <= i < Count(a.children, tag) && i < Count(b.children, tag)
      ensures Equivalent(WithTag(a.children, tag)[i], WithTag(b.children, tag)[i])
    {
      WithTagMember(a.children, tag, i);
      var s := Child(tag, if Count(a.children, tag) == 1 then 0 else i + 1);
      WithTagMember(b.children, tag, i);
      assert Resolve(a.children, s) == Some(WithTag(a.children, tag)[i]);
      assert Resolve(b.children, s) == Some(WithTag(b.children, tag)[i]);
      ResolveSame(a, b, s);
      LookupsDetermine(WithTag(a.children, tag)[i], WithTag(b.children, tag)[i]);
    }
  }
}

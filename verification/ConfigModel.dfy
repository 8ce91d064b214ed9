/** The navigable, redacted model of a device configuration. */
module ConfigModel {
  import opened Strings
  import opened ConfigTree
  import opened ConfigDiff
  import opened ConfigCompare

  /* Which names denote secrets */

  const SENSITIVE_SUBSTRINGS: seq<string> := [
    "password", "passwd", "secret", "psk", "pre-shared-key", "preshared",
    "passphrase", "privatekey", "private_key", "apikey", "api_key",
    "sharedkey", "shared_key", "token", "prv",
    "privkey", "hash", "seed"]

  function Lower(s: string): string {
    seq(|s|, i requires 0 <= i < |s| => if 'A' <= s[i] <= 'Z' then s[i] - 'A' + 'a' else s[i])
  }

  predicate Contains(s: string, sub: string) {
    exists i :: 0 <= i <= |s| && sub <= s[i..]
  }

  predicate IsSensitive(tag: string) {
    exists i :: 0 <= i < |SENSITIVE_SUBSTRINGS| && Contains(Lower(tag), SENSITIVE_SUBSTRINGS[i])
  }

  /** The same letter in either case, or the same character. */
  predicate SameLetter(c: char, d: char) {
    || c == d
    || ('A' <= c <= 'Z' && d as int == c as int + 32)
    || ('A' <= d <= 'Z' && c as int == d as int + 32)
  }

  ghost predicate SameUpToCase(s: string, t: string) {
    |s| == |t| && forall i :: 0 <= i < |s| ==> SameLetter(s[i], t[i])
  }

  lemma LowerForgetsCase(s: string, t: string)
    ensures SameUpToCase(s, t) <==> Lower(s) == Lower(t)
  {
    if Lower(s) == Lower(t) {
      forall i | 0 <= i < |s| ensures SameLetter(s[i], t[i]) {
        assert Lower(s)[i] == Lower(t)[i];
      }
    }
  }

  /** A secret's word appears in `tag`, in any mix of cases. */
  ghost predicate Mentions(tag: string, word: string) {
    exists p, w, q :: tag == p + w + q && SameUpToCase(w, word)
  }

  lemma LowerOfPart(s: string, i: nat, j: nat)
    requires i <= j <= |s|
    ensures Lower(s)[i..j] == Lower(s[i..j])
  {
  }

  /** A word without capitals appears in a tag, in any mix of cases, exactly when the tag in lower case
      contains it. */
  lemma MentionsExactly(tag: string, word: string)
    requires Lower(word) == word
    ensures Mentions(tag, word) <==> Contains(Lower(tag), word)
  {
    if Mentions(tag, word) {
      var p, w, q :| tag == p + w + q && SameUpToCase(w, word);
      var i := |p|;
      LowerForgetsCase(w, word);
      assert tag[i..i + |w|] == w;
      LowerOfPart(tag, i, i + |w|);
      assert word == Lower(tag)[i..][..|w|];
    }
    if Contains(Lower(tag), word) {
      var i :| 0 <= i <= |Lower(tag)| && word <= Lower(tag)[i..];
      var j := i + |word|;
      assert Lower(tag)[i..j] == word;
      LowerOfPart(tag, i, j);
      LowerForgetsCase(tag[i..j], word);
      assert tag == tag[..i] + tag[i..j] + tag[j..];
    }
  }

  lemma ListedInLowerCase(i: nat)
    requires i < |SENSITIVE_SUBSTRINGS|
    ensures Lower(SENSITIVE_SUBSTRINGS[i]) == SENSITIVE_SUBSTRINGS[i]
  {
  }

  /** A name is sensitive exactly when a listed word appears in it, in any mix of cases. */
  lemma SensitiveExactlyWhen(tag: string)
    ensures IsSensitive(tag) <==> exists i :: 0 <= i < |SENSITIVE_SUBSTRINGS| && Mentions(tag, SENSITIVE_SUBSTRINGS[i])
  {
    forall i | 0 <= i < |SENSITIVE_SUBSTRINGS|
      ensures Mentions(tag, SENSITIVE_SUBSTRINGS[i]) <==> Contains(Lower(tag), SENSITIVE_SUBSTRINGS[i])
    {
      ListedInLowerCase(i);
      MentionsExactly(tag, SENSITIVE_SUBSTRINGS[i]);
    }
  }

  /** So letter case does not matter. */
  lemma CaseIsIrrelevant(s: string, t: string)
    requires SameUpToCase(s, t)
    ensures IsSensitive(s) <==> IsSensitive(t)
  {
    LowerForgetsCase(s, t);
  }

  /* The model */

  datatype Node = Node(
    tag: string,
    path: string,
    attributes: map<string, Option<string>>,
    children: seq<Node>,
    value: Option<string>,
    sensitive: bool)

  function Attributes(attrib: map<string, string>, redacted: bool): map<string, Option<string>> {
    map k | k in attrib :: if redacted || IsSensitive(k) then None else Some(attrib[k])
  }

  function NodeOf(e: Element, path: string, above: bool): Node
    decreases e, 2
  {
    var redacted := above || IsSensitive(e.tag);
    Node(e.tag, path, Attributes(e.attrib, redacted),
         NodesBelow(e, path, redacted),
         if e.children == [] && !redacted then Some(LeafText(e)) else None,
         redacted)
  }

  /** The node of child `j`. */
  function NodeBelow(e: Element, j: nat, path: string, redacted: bool): Node
    requires j < |e.children|
    decreases e, 0
  {
    NodeOf(e.children[j], ChildPath(path, SegOf(e.children, j)), redacted)
  }

  function NodesBelow(e: Element, path: string, redacted: bool): (nodes: seq<Node>)
    ensures |nodes| == |e.children|
    decreases e, 1
  {
    seq(|e.children|, (j: nat) requires j < |e.children| => NodeBelow(e, j, path, redacted))
  }

  lemma NodeBelowAt(e: Element, path: string, redacted: bool, j: nat)
    requires j < |e.children|
    ensures NodesBelow(e, path, redacted)[j]
            == NodeOf(e.children[j], ChildPath(path, SegOf(e.children, j)), redacted)
  {
  }

  function BuildTree(xml: Element): Node {
    var root := StripVolatile(xml);
    NodeOf(root, root.tag, false)
  }

  /** `_node`: redaction starts at a sensitive tag and is handed down. */
  method BuildNode(elem: Element, path: string, above: bool) returns (node: Node)
    ensures node == NodeOf(elem, path, above)
    decreases elem, 3
  {
    var redacted := above || IsSensitive(elem.tag);
    var attributes := Attributes(elem.attrib, redacted);
    var value := if elem.children == [] && !redacted then Some(LeafText(elem)) else None;
    var nodes := BuildChildren(elem, path, redacted);
    node := Node(elem.tag, path, attributes, nodes, value, redacted);
  }

  /** The second half of `_node`: the counters and the child list it fills. */
  method BuildChildren(elem: Element, path: string, redacted: bool) returns (nodes: seq<Node>)
    ensures nodes == NodesBelow(elem, path, redacted)
    decreases elem, 2
  {
    nodes := FillChildren(elem, path, redacted, NodesBelow(elem, path, redacted));
  }

  method FillChildren(elem: Element, path: string, redacted: bool, ghost want: seq<Node>) returns (nodes: seq<Node>)
    requires want == NodesBelow(elem, path, redacted)
    ensures nodes == want
    decreases elem, 1
  {
    var total := TagTotals(elem.children);
    var seen: map<string, nat> := map[];
    nodes := [];
    var j := 0;
    while j < |elem.children|
      invariant j <= |elem.children| == |want| && seen == Tally(elem.children, j)
      invariant |nodes| == j && forall i :: 0 <= i < j ==> nodes[i] == want[i]
    {
      nodes, seen := BuildChild(elem, j, total, seen, path, redacted, want, nodes);
      j := j + 1;
    }
  }

  /** Child `j`: its tag is counted and its node appended. */
  method BuildChild(elem: Element, j: nat, total: map<string, nat>, seen0: map<string, nat>, path: string, redacted: bool,
                    ghost want: seq<Node>, nodes0: seq<Node>)
    returns (nodes: seq<Node>, seen: map<string, nat>)
    requires j < |elem.children| && want == NodesBelow(elem, path, redacted)
    requires total == Tally(elem.children, |elem.children|) && seen0 == Tally(elem.children, j)
    ensures nodes == nodes0 + [want[j]] && seen == Tally(elem.children, j + 1)
    decreases elem, 0
  {
    var child := elem.children[j];
    seen := seen0[child.tag := Get(seen0, child.tag) + 1];
    NodeBelowAt(elem, path, redacted, j);
    SegIsWritten(elem.children, j);
    var node := BuildNode(child, path + "/" + Segment(child.tag, Get(total, child.tag), Get(seen, child.tag)), redacted);
    nodes := nodes0 + [node];
  }

  /* Non-interference */

  /** Equal except for the text around children, leaf text and attribute values at or below a
      sensitive tag, and the values of sensitively named attributes. */
  ghost predicate SameExceptSecrets(a: Element, b: Element, above: bool)
    decreases a
  {
    var redacted := above || IsSensitive(a.tag);
    && a.tag == b.tag
    && a.attrib.Keys == b.attrib.Keys
    && (forall k :: k in a.attrib && !redacted && !IsSensitive(k) ==> a.attrib[k] == b.attrib[k])
    && |a.children| == |b.children|
    && (a.children == [] && !redacted ==> SameText(a.text, b.text))
    && (forall j :: 0 <= j < |a.children| ==> SameExceptSecrets(a.children[j], b.children[j], redacted))
  }

  lemma {:induction false} SameTagsSameRank(cs: seq<Element>, ds: seq<Element>, n: nat, tag: string)
    requires n <= |cs| == |ds| && forall j :: 0 <= j < |cs| ==> cs[j].tag == ds[j].tag
    ensures Rank(cs, n, tag) == Rank(ds, n, tag)
    decreases n
  {
    if n > 0 {
      SameTagsSameRank(cs, ds, n - 1, tag);
    }
  }

  lemma SameTagsSameSeg(cs: seq<Element>, ds: seq<Element>, j: nat)
    requires |cs| == |ds| && forall j :: 0 <= j < |cs| ==> cs[j].tag == ds[j].tag
    requires j < |cs|
    ensures SegOf(cs, j) == SegOf(ds, j)
  {
    SameTagsSameRank(cs, ds, |cs|, cs[j].tag);
    SameTagsSameRank(cs, ds, j + 1, cs[j].tag);
  }

  lemma {:induction false} SecretsDoNotShow(a: Element, b: Element, path: string, above: bool)
    requires SameExceptSecrets(a, b, above)
    ensures NodeOf(a, path, above) == NodeOf(b, path, above)
    decreases a
  {
    var redacted := above || IsSensitive(a.tag);
    var na, nb := NodeOf(a, path, above), NodeOf(b, path, above);
    assert na.attributes == nb.attributes;
    SameTextExactly(a, b);
    forall j | 0 <= j < |a.children| ensures na.children[j] == nb.children[j] {
      assert SameExceptSecrets(a.children[j], b.children[j], redacted);
      SameTagsSameSeg(a.children, b.children, j);
      NodeBelowAt(a, path, redacted, j);
      NodeBelowAt(b, path, redacted, j);
      SecretsDoNotShow(a.children[j], b.children[j], ChildPath(path, SegOf(a.children, j)), redacted);
    }
    assert na.children == nb.children;
  }

  lemma {:induction false} RestShows(a: Element, b: Element, path: string, above: bool)
    requires NodeOf(a, path, above) == NodeOf(b, path, above)
    ensures SameExceptSecrets(a, b, above)
    decreases a
  {
    var redacted := above || IsSensitive(a.tag);
    var na, nb := NodeOf(a, path, above), NodeOf(b, path, above);
    assert |na.children| == |a.children| && |nb.children| == |b.children|;
    SameTextExactly(a, b);
    assert na.attributes.Keys == a.attrib.Keys && nb.attributes.Keys == b.attrib.Keys;
    forall k | k in a.attrib && !redacted && !IsSensitive(k) ensures a.attrib[k] == b.attrib[k] {
      assert na.attributes[k] == Some(a.attrib[k]) && nb.attributes[k] == Some(b.attrib[k]);
    }
    forall j | 0 <= j < |a.children| ensures SameExceptSecrets(a.children[j], b.children[j], redacted) {
      var pa, pb := ChildPath(path, SegOf(a.children, j)), ChildPath(path, SegOf(b.children, j));
      NodeBelowAt(a, path, redacted, j);
      NodeBelowAt(b, path, redacted, j);
      assert pa == na.children[j].path && pb == nb.children[j].path;
      RestShows(a.children[j], b.children[j], pa, redacted);
    }
  }

  /** What the model reveals of a document is everything except its secrets: two documents have one
      model exactly when they differ in nothing but secrets, volatile nodes and text around children. */
  lemma RedactionExact(a: Element, b: Element)
    ensures BuildTree(a) == BuildTree(b)
            <==> SameExceptSecrets(StripVolatile(a), StripVolatile(b), false)
  {
    var sa, sb := StripVolatile(a), StripVolatile(b);
    if SameExceptSecrets(sa, sb, false) {
      SecretsDoNotShow(sa, sb, sa.tag, false);
    }
    if BuildTree(a) == BuildTree(b) {
      assert sa.tag == sb.tag;
      RestShows(sa, sb, sa.tag, false);
    }
  }

  /** Nothing at or below a sensitive node carries a value. */
  ghost predicate Silent(n: Node) {
    n.sensitive && n.value == None
    && (forall k :: k in n.attributes ==> n.attributes[k] == None)
    && (forall c :: c in n.children ==> Silent(c))
  }

  lemma {:induction false} SensitiveIsSilent(e: Element, path: string, above: bool)
    requires above || IsSensitive(e.tag)
    ensures Silent(NodeOf(e, path, above))
    decreases e
  {
    var n := NodeOf(e, path, above);
    forall c | c in n.children ensures Silent(c) {
      var j :| 0 <= j < |n.children| && n.children[j] == c;
      NodeBelowAt(e, path, true, j);
      SensitiveIsSilent(e.children[j], ChildPath(path, SegOf(e.children, j)), true);
    }
  }

  /** A tag that holds a listed word, however written, hides everything at and below it; a leaf outside
      shows its text unless its tag holds one. */
  lemma WordsRedact(e: Element, path: string)
    ensures var n := NodeOf(e, path, false);
            if exists i :: 0 <= i < |SENSITIVE_SUBSTRINGS| && Mentions(e.tag, SENSITIVE_SUBSTRINGS[i]) then Silent(n)
            else !n.sensitive && (e.children == [] ==> n.value.Some? && Trimmed(TextOf(e.text), n.value.value))
  {
    SensitiveExactlyWhen(e.tag);
    if IsSensitive(e.tag) {
      SensitiveIsSilent(e, path, false);
    } else {
      StripExactly(TextOf(e.text), LeafText(e));
    }
  }

  /* The model uses the paths of the flattened map */

  ghost predicate LeafOf(n: Node, tree: Node) {
    (tree.children == [] && n == tree)
    || exists j :: 0 <= j < |tree.children| && LeafOf(n, tree.children[j])
  }

  ghost predicate ElementPath(p: Path) {
    forall i :: 0 <= i < |p| ==> p[i].Child?
  }

  lemma {:induction false} LeafHasPath(e: Element, path: string, above: bool, n: Node) returns (p: Path)
    requires LeafOf(n, NodeOf(e, path, above))
    ensures ElementPath(p) && Lookup(e, p).Some? && n.path == Key(path, p)
    ensures !n.sensitive ==> n.value == Lookup(e, p)
    decreases e
  {
    var tree, redacted := NodeOf(e, path, above), above || IsSensitive(e.tag);
    if e.children == [] {
      p := [];
      KeyOfLeaf(path);
    } else {
      var j :| 0 <= j < |tree.children| && LeafOf(n, tree.children[j]);
      var s := SegOf(e.children, j);
      NodeBelowAt(e, path, redacted, j);
      var q := LeafHasPath(e.children[j], ChildPath(path, s), redacted, n);
      p := [s] + q;
      KeyBelow(path, s, q);
      LookupBelow(e, j, q);
    }
  }

  lemma {:induction false} PathHasLeaf(e: Element, path: string, above: bool, p: Path) returns (n: Node)
    requires ElementPath(p) && Lookup(e, p).Some?
    ensures LeafOf(n, NodeOf(e, path, above)) && n.path == Key(path, p)
    decreases |p|
  {
    var tree, redacted := NodeOf(e, path, above), above || IsSensitive(e.tag);
    if p == [] {
      n := tree;
      KeyOfLeaf(path);
    } else {
      assert p[0].Child?;
      var j := LookupChild(e, p);
      var s := SegOf(e.children, j);
      n := PathHasLeaf(e.children[j], ChildPath(path, s), redacted, p[1..]);
      NodeBelowAt(e, path, redacted, j);
      assert LeafOf(n, tree.children[j]);
      KeyBelow(path, s, p[1..]);
    }
  }

  lemma KeyOfElement(e: Element, path: string, p: Path)
    requires WellFormed(e) && Lookup(e, p).Some? && '@' !in path
    ensures '@' !in Key(path, p) <==> ElementPath(p)
  {
    LookupIsValid(e, p);
    KeyText(path, p);
    PathTextChars(p);
  }

  /** The leaves of the model carry exactly the non-attribute keys of the flattened map, and every
      leaf that is not sensitive carries the flattened value. */
  lemma ModelMatchesFlatten(xml: Element)
    requires WellFormed(xml)
    ensures forall k :: (exists n :: LeafOf(n, BuildTree(xml)) && n.path == k)
                        <==> k in Flatten(xml) && '@' !in k
    ensures forall n :: LeafOf(n, BuildTree(xml)) && !n.sensitive ==>
              n.path in Flatten(xml) && n.value == Some(Flatten(xml)[n.path])
  {
    var root, m := StripVolatile(xml), Flatten(xml);
    StripVolatileKeepsForm(xml);
    WalkSound(root, root.tag);
    forall n | LeafOf(n, BuildTree(xml))
      ensures n.path in m && '@' !in n.path
      ensures !n.sensitive ==> n.value == Some(m[n.path])
    {
      var p := LeafHasPath(root, root.tag, false, n);
      WalkCovers(root, root.tag, p);
      SoundValue(m, root, root.tag, p);
      KeyOfElement(root, root.tag, p);
    }
    forall k | k in m && '@' !in k
      ensures exists n :: LeafOf(n, BuildTree(xml)) && n.path == k
    {
      assert Addresses(root, root.tag, k, m[k]);
      var p :| k == Key(root.tag, p) && Lookup(root, p) == Some(m[k]);
      KeyOfElement(root, root.tag, p);
      var n := PathHasLeaf(root, root.tag, false, p);
    }
  }
}

/** Exactly which flattened maps share their hash input with another one. */
module ConfigCollision {
  import opened Strings
  import opened ConfigHash

  /* Joining and splitting in the middle */

  lemma SplitFirst(s: string, sep: char)
    requires s != ""
    ensures var rest := Split(s[1..], sep);
            Split(s, sep) == if s[0] == sep then [""] + rest else [[s[0]] + rest[0]] + rest[1..]
  {
  }

  lemma ConcatParts(a: seq<string>, b: seq<string>)
    requires a != []
    ensures (a + b)[0] == a[0] && (a + b)[1..] == a[1..] + b
  {
  }

  lemma {:induction false} SplitConcat(x: string, rest: string, sep: char)
    ensures Split(x + [sep] + rest, sep) == Split(x, sep) + Split(rest, sep)
    decreases |x|
  {
    var s := x + [sep] + rest;
    SplitFirst(s, sep);
    if x == "" {
      assert s[1..] == rest;
    } else {
      assert s[1..] == x[1..] + [sep] + rest;
      SplitConcat(x[1..], rest, sep);
      SplitFirst(x, sep);
      ConcatParts(Split(x[1..], sep), Split(rest, sep));
    }
  }

  lemma {:induction false} JoinConcat(a: seq<string>, b: seq<string>, sep: char)
    requires a != [] && b != []
    ensures Join(a + b, sep) == Join(a, sep) + [sep] + Join(b, sep)
    decreases |a|
  {
    assert (a + b)[0] == a[0] && (a + b)[1..] == a[1..] + b;
    if |a| > 1 {
      JoinConcat(a[1..], b, sep);
    } else {
      assert a[1..] + b == b;
    }
  }

  /** What a joined list starts with. */
  lemma JoinStarts(lines: seq<string>, sep: char) returns (rest: string)
    requires lines != []
    ensures Join(lines, sep) == lines[0] + rest
    ensures rest == "" || rest[0] == sep
  {
    rest := if |lines| == 1 then "" else [sep] + Join(lines[1..], sep);
  }

  /* A value that holds another entry */

  /** A later line of the value reads as an entry whose path comes after `p`. */
  ghost predicate HoldsLaterEntry(p: string, value: string) {
    var lines := Split(value, '\n');
    exists i :: 1 <= i < |lines| && IsEntry(lines[i]) && Less(p, Head(lines[i]))
  }

  /** The value is `x`, a newline, and the entry `q=y`. */
  ghost predicate Cut(value: string, x: string, q: string, y: string) {
    value == x + "\n" + (q + "=" + y) && '=' !in q && '\n' !in q
  }

  /** A value around its `i`-th line. */
  lemma AroundLine(value: string, i: nat) returns (x: string, rest: string)
    requires 1 <= i < |Split(value, '\n')|
    ensures value == x + "\n" + (Split(value, '\n')[i] + rest)
  {
    var lines := Split(value, '\n');
    JoinSplit(value, '\n');
    assert lines == lines[..i] + lines[i..];
    JoinConcat(lines[..i], lines[i..], '\n');
    rest := JoinStarts(lines[i..], '\n');
    x := Join(lines[..i], '\n');
  }

  lemma LaterEntryCuts(p: string, value: string) returns (x: string, q: string, y: string)
    requires HoldsLaterEntry(p, value)
    ensures Cut(value, x, q, y) && Less(p, q)
  {
    var lines := Split(value, '\n');
    var i :| 1 <= i < |lines| && IsEntry(lines[i]) && Less(p, Head(lines[i]));
    var rest;
    x, rest := AroundLine(value, i);
    EntryChars(lines[i]);
    q, y := Head(lines[i]), Tail(lines[i]) + rest;
    RegroupEntry(lines[i], q, Tail(lines[i]), rest);
  }

  lemma RegroupEntry(line: string, q: string, t: string, rest: string)
    requires line == q + "=" + t
    ensures line + rest == q + "=" + (t + rest)
  {
  }

  lemma CutHoldsLaterEntry(p: string, value: string, x: string, q: string, y: string)
    requires Cut(value, x, q, y) && Less(p, q)
    ensures HoldsLaterEntry(p, value)
  {
    var entry := q + "=" + y;
    var lines, first := Split(value, '\n'), Split(entry, '\n')[0];
    assert value == x + ['\n'] + entry;
    SplitConcat(x, entry, '\n');
    var i := |Split(x, '\n')|;
    assert lines[i] == first;
    JoinSplit(entry, '\n');
    var rest := JoinStarts(Split(entry, '\n'), '\n');
    FirstLineIsEntry(q, y, first, rest);
  }

  /** The first line of an entry is an entry of the same path. */
  lemma FirstLineIsEntry(q: string, y: string, first: string, rest: string)
    requires q + "=" + y == first + rest && '=' !in q && '\n' !in q && (rest == "" || rest[0] == '\n')
    ensures IsEntry(first) && Head(first) == q
  {
    var whole := q + "=" + y;
    assert forall i :: 0 <= i <= |q| ==> whole[i] != '\n';
    assert rest != "" ==> whole[|first|] == rest[0];
    var t := first[|q| + 1..];
    assert first == whole[..|first|];
    assert first == q + ['='] + t;
    PartitionCut(q, t, '=');
  }

  /* One path */

  lemma OnePathCut(m: Flat, p: string, x: string, q: string, y: string) returns (n: Flat)
    requires PlainPaths(m) && m.Keys == {p} && Cut(m[p], x, q, y) && Less(p, q)
    ensures n != m && PlainPaths(n) && Blob(n) == Blob(m)
  {
    LessTotal(p, q);
    n := map[p := x, q := y];
    assert q in n && q !in m;
    CollidingBlobs(m, n, p, q);
  }

  lemma OnePathUnique(m: Flat, n: Flat, p: string, q: string)
    requires PlainPaths(m) && PlainPaths(n) && m.Keys == {p} && n.Keys == {q} && Blob(m) == Blob(n)
    ensures m == n
  {
    BlobOne(m, p);
    BlobOne(n, q);
    LineIsEntry(m, p);
    LineIsEntry(n, q);
  }

  /** The blob of several entries is its first entry, a newline, and a second one with a later path. */
  lemma BlobStarts(n: Flat) returns (p: string, q: string, y: string)
    requires PlainPaths(n) && |n| >= 2
    ensures p in n && q in n && Less(p, q) && Blob(n) == Line(n, p) + "\n" + (q + "=" + y)
  {
    var keys, lines := Sorted(n.Keys), Lines(n);
    SortedAscending(n.Keys);
    p, q := keys[0], keys[1];
    assert p in keys && q in keys;
    assert lines[0] == Line(n, p) && lines[1] == Line(n, q);
    var rest := JoinStarts(lines[1..], '\n');
    y := n[q] + rest;
    assert Line(n, q) + rest == q + "=" + y;
  }

  lemma ManyPathsCut(m: Flat, n: Flat, p: string)
    requires PlainPaths(m) && PlainPaths(n) && m.Keys == {p} && |n| >= 2 && Blob(m) == Blob(n)
    ensures HoldsLaterEntry(p, m[p])
  {
    var a, q, y := BlobStarts(n);
    BlobOne(m, p);
    var entry := q + "=" + y;
    RegroupLine(a, n[a], entry);
    assert p + ['='] + m[p] == a + ['='] + (n[a] + "\n" + entry);
    PartitionCut(p, m[p], '=');
    PartitionCut(a, n[a] + "\n" + entry, '=');
    CutHoldsLaterEntry(p, m[p], n[a], q, y);
  }

  /* Several paths */

  /** All later lines folded into the first value. */
  lemma ManyPathsFold(m: Flat) returns (n: Flat)
    requires PlainPaths(m) && |m| >= 2
    ensures n != m && PlainPaths(n) && Blob(n) == Blob(m)
  {
    var p, q, y := BlobStarts(m);
    var entry := q + "=" + y;
    n := map[p := m[p] + "\n" + entry];
    LessTotal(p, q);
    assert q !in n;
    BlobOne(n, p);
    RegroupLine(p, m[p], entry);
  }

  /** Another plain map, which need not be that of a document, shares the hash input of `m` exactly when
      `m` has at least two paths, or its only value holds a later line that reads as an entry with a later
      path. So the hash input of a plain map with two paths never determines it. */
  lemma CollidesExactlyWhen(m: Flat)
    requires PlainPaths(m)
    ensures (exists n: Flat :: n != m && PlainPaths(n) && Blob(n) == Blob(m))
       <==> |m| >= 2 || exists p :: p in m && HoldsLaterEntry(p, m[p])
  {
    if |m| >= 2 {
      var n := ManyPathsFold(m);
    } else {
      var p := OnlyPath(m);
      if HoldsLaterEntry(p, m[p]) {
        var x, q, y := LaterEntryCuts(p, m[p]);
        var n := OnePathCut(m, p, x, q, y);
      }
      forall n: Flat | n != m && PlainPaths(n) && Blob(n) == Blob(m) ensures HoldsLaterEntry(p, m[p]) {
        if |n| >= 2 {
          ManyPathsCut(m, n, p);
        } else {
          var q := OnlyPath(n);
          OnePathUnique(m, n, p, q);
        }
      }
    }
  }

  lemma OnlyPath(m: Flat) returns (p: string)
    requires PlainPaths(m) && |m| < 2
    ensures m.Keys == {p}
  {
    p :| p in m;
    assert |m.Keys - {p}| == 0;
  }
}

/** String helpers shared by the models: joining and splitting on one separator
    character, cutting at the first occurrence of a character, decimal numerals,
    and the code-point order on which sorting is based. */
module Strings {

  datatype Option<+T> = None | Some(value: T)

  /* Joining and splitting */

  function Join(parts: seq<string>, sep: char): string {
    if |parts| == 0 then ""
    else if |parts| == 1 then parts[0]
    else parts[0] + [sep] + Join(parts[1..], sep)
  }

  /** Splitting the empty string gives one empty part, as in the source language. */
  function Split(s: string, sep: char): (parts: seq<string>)
    ensures |parts| >= 1
    ensures forall i :: 0 <= i < |parts| ==> sep !in parts[i]
  {
    if s == "" then [""]
    else
      var rest := Split(s[1..], sep);
      if s[0] == sep then [""] + rest
      else [[s[0]] + rest[0]] + rest[1..]
  }

  lemma {:induction false} SplitCut(head: string, tail: string, sep: char)
    requires sep !in head
    ensures Split(head, sep) == [head]
    ensures Split(head + [sep] + tail, sep) == [head] + Split(tail, sep)
  {
    var s := head + [sep] + tail;
    if head == "" {
      assert s[1..] == tail;
    } else {
      SplitCut(head[1..], tail, sep);
      assert s[1..] == head[1..] + [sep] + tail;
      assert s[0] == head[0];
      assert [head[0]] + head[1..] == head;
    }
  }

  /** Splitting undoes joining when no part holds the separator. */
  lemma {:induction false} SplitJoin(parts: seq<string>, sep: char)
    requires |parts| >= 1
    requires forall i :: 0 <= i < |parts| ==> sep !in parts[i]
    ensures Split(Join(parts, sep), sep) == parts
  {
    if |parts| == 1 {
      SplitCut(parts[0], "", sep);
    } else {
      SplitCut(parts[0], Join(parts[1..], sep), sep);
      SplitJoin(parts[1..], sep);
    }
  }

  /* Cutting at the first occurrence of a character */

  /** The parts before and after the first `c`, or None when `c` does not occur. */
  function Partition(s: string, c: char): Option<(string, string)> {
    if s == "" then None
    else if s[0] == c then Some(("", s[1..]))
    else
      match Partition(s[1..], c)
      case None => None
      case Some(p) => Some(([s[0]] + p.0, p.1))
  }

  lemma {:induction false} PartitionCut(head: string, tail: string, c: char)
    requires c !in head
    ensures Partition(head + [c] + tail, c) == Some((head, tail))
  {
    var s := head + [c] + tail;
    if head == "" {
      assert s[1..] == tail;
    } else {
      PartitionCut(head[1..], tail, c);
      assert s[1..] == head[1..] + [c] + tail;
      assert [head[0]] + head[1..] == head;
    }
  }

  lemma {:induction false} PartitionRebuilds(s: string, c: char)
    ensures Partition(s, c).None? <==> c !in s
    ensures Partition(s, c).Some? ==>
              s == Partition(s, c).value.0 + [c] + Partition(s, c).value.1
              && c !in Partition(s, c).value.0
  {
    if s != "" && s[0] != c {
      PartitionRebuilds(s[1..], c);
      assert s == [s[0]] + s[1..];
    }
  }

  /** Two strings that continue with `c` or end after a `c`-free head agree on the head. */
  lemma CutUnique(h1: string, t1: string, h2: string, t2: string, c: char)
    requires c !in h1 && c !in h2
    requires t1 == "" || t1[0] == c
    requires t2 == "" || t2[0] == c
    requires h1 + t1 == h2 + t2
    ensures h1 == h2 && t1 == t2
  {
    var s := h1 + t1;
    assert forall i :: 0 <= i < |h1| ==> s[i] == h1[i];
    assert forall i :: 0 <= i < |h2| ==> s[i] == h2[i];
    assert |h1| < |s| ==> s[|h1|] == c;
    assert |h2| < |s| ==> s[|h2|] == c;
    assert |h1| == |h2|;
    assert h1 == (h1 + t1)[..|h1|] && h2 == (h2 + t2)[..|h2|];
    assert t1 == (h1 + t1)[|h1|..] && t2 == (h2 + t2)[|h2|..];
  }

  /* Decimal numerals */

  function Digit(n: nat): (c: char)
    requires n < 10
  {
    "0123456789"[n]
  }

  function Decimal(n: nat): (s: string)
    ensures |s| >= 1
    ensures forall i :: 0 <= i < |s| ==> '0' <= s[i] <= '9'
  {
    if n < 10 then [Digit(n)] else Decimal(n / 10) + [Digit(n % 10)]
  }

  lemma {:induction false} DecimalLength(n: nat)
    ensures |Decimal(n)| == 1 <==> n < 10
  {
    if n >= 10 {
      assert |Decimal(n / 10)| >= 1;
    }
  }

  lemma DecimalLast(n: nat)
    requires n >= 10
    ensures Decimal(n)[..|Decimal(n)| - 1] == Decimal(n / 10)
    ensures Decimal(n)[|Decimal(n)| - 1] == Digit(n % 10)
  {
  }

  lemma DigitInjective(m: nat, n: nat)
    requires m < 10 && n < 10 && Digit(m) == Digit(n)
    ensures m == n
  {
  }

  lemma {:induction false} DecimalInjective(m: nat, n: nat)
    requires Decimal(m) == Decimal(n)
    ensures m == n
  {
    DecimalLength(m);
    DecimalLength(n);
    if m < 10 {
      assert Decimal(m)[0] == Digit(m) && Decimal(n)[0] == Digit(n);
      DigitInjective(m, n);
    } else {
      DecimalLast(m);
      DecimalLast(n);
      DecimalInjective(m / 10, n / 10);
      DigitInjective(m % 10, n % 10);
    }
  }

  /* The code-point order */

  predicate Less(a: string, b: string) {
    if b == "" then false
    else if a == "" then true
    else a[0] < b[0] || (a[0] == b[0] && Less(a[1..], b[1..]))
  }

  lemma {:induction false} LessTotal(a: string, b: string)
    ensures Less(a, b) || a == b || Less(b, a)
    ensures !(Less(a, b) && Less(b, a))
    ensures !Less(a, a)
  {
    if a != "" {
      LessTotal(a[1..], a[1..]);
    }
    if a != "" && b != "" {
      LessTotal(a[1..], b[1..]);
      if a[0] == b[0] && a[1..] == b[1..] {
        assert a == [a[0]] + a[1..] && b == [b[0]] + b[1..];
      }
    }
  }

  lemma {:induction false} LessTransitive(a: string, b: string, c: string)
    requires Less(a, b) && Less(b, c)
    ensures Less(a, c)
  {
    if a != "" && a[0] == b[0] && b[0] == c[0] {
      LessTransitive(a[1..], b[1..], c[1..]);
    }
  }

  /** Strictly ascending: what sorting a set of strings produces. */
  ghost predicate Ascending(s: seq<string>) {
    forall i, j :: 0 <= i < j < |s| ==> Less(s[i], s[j])
  }

  lemma {:induction false} LeastExists(keys: set<string>) returns (k: string)
    requires keys != {}
    ensures k in keys
    ensures forall other :: other in keys && other != k ==> Less(k, other)
  {
    k :| k in keys;
    if keys != {k} {
      var rest := keys - {k};
      assert rest != {};
      var least := LeastExists(rest);
      LessTotal(k, least);
      if Less(least, k) {
        k := least;
      } else {
        forall other | other in keys && other != k ensures Less(k, other) {
          if other != least {
            LessTransitive(k, least, other);
          }
        }
      }
    }
  }

  predicate IsLeast(k: string, keys: set<string>) {
    k in keys && forall other :: other in keys && other != k ==> Less(k, other)
  }

  lemma LeastUnique(keys: set<string>)
    requires keys != {}
    ensures exists k :: IsLeast(k, keys)
    ensures forall j, k :: IsLeast(j, keys) && IsLeast(k, keys) ==> j == k
  {
    var k := LeastExists(keys);
    assert IsLeast(k, keys);
    forall i, j | IsLeast(i, keys) && IsLeast(j, keys) ensures i == j {
      LessTotal(i, j);
    }
  }

  /** `sorted(keys)` */
  function Sorted(keys: set<string>): (s: seq<string>)
    ensures forall k :: k in s <==> k in keys
    ensures |s| == |keys|
    decreases |keys|
  {
    if keys == {} then []
    else
      LeastUnique(keys);
      var k :| k in keys && IsLeast(k, keys);
      [k] + Sorted(keys - {k})
  }

  lemma {:induction false} SortedAscending(keys: set<string>)
    ensures Ascending(Sorted(keys))
    decreases |keys|
  {
    if keys != {} {
      var s := Sorted(keys);
      LeastUnique(keys);
      assert IsLeast(s[0], keys) && s[1..] == Sorted(keys - {s[0]});
      SortedAscending(keys - {s[0]});
      forall i, j | 0 <= i < j < |s| ensures Less(s[i], s[j]) {
        assert s[j] == s[1..][j - 1] && s[j] in keys - {s[0]};
        if i > 0 {
          assert s[i] == s[1..][i - 1];
        }
      }
    }
  }

  lemma FirstIsMember(t: seq<string>)
    requires |t| > 0
    ensures t[0] in t
  {
  }

  /** There is only one ascending list of a set. */
  lemma {:induction false} AscendingUnique(s: seq<string>, t: seq<string>)
    requires Ascending(s) && Ascending(t)
    requires forall k :: k in s <==> k in t
    ensures s == t
  {
    if s == [] {
      if |t| > 0 {
        FirstIsMember(t);
      }
    } else {
      assert s[0] in t;
      assert t[0] in s;
      LessTotal(s[0], t[0]);
      assert s[0] == t[0];
      forall k | k in s[1..] ensures k in t[1..] {
        LessTotal(s[0], k);
        assert k in t && k != t[0];
      }
      forall k | k in t[1..] ensures k in s[1..] {
        LessTotal(t[0], k);
        assert k in s && k != s[0];
      }
      AscendingUnique(s[1..], t[1..]);
      assert s == [s[0]] + s[1..] && t == [t[0]] + t[1..];
    }
  }

  lemma {:induction false} JoinSplit(s: string, sep: char)
    ensures Join(Split(s, sep), sep) == s
  {
    if s != "" {
      var parts, rest := Split(s, sep), Split(s[1..], sep);
      JoinSplit(s[1..], sep);
      assert s == [s[0]] + s[1..];
      if s[0] == sep {
        assert parts[1..] == rest;
      } else {
        assert parts[1..] == rest[1..];
        assert Join(parts, sep) == [s[0]] + Join(rest, sep);
      }
    }
  }

  /* Names that may be embedded in URL paths and comma-joined fields */

  predicate PlainChar(c: char) {
    'A' <= c <= 'Z' || 'a' <= c <= 'z' || '0' <= c <= '9' || c == '.' || c == '_' || c == '-'
  }

  predicate PlainName(s: string) {
    s != "" && forall c :: c in s ==> PlainChar(c)
  }

  /** By code point: hyphen, dot, digits, capitals, underscore and small letters. */
  ghost predicate PlainCode(n: int) {
    n == 0x2D || n == 0x2E || 0x30 <= n < 0x3A || 0x41 <= n < 0x5B || n == 0x5F || 0x61 <= n < 0x7B
  }

  /** A plain name is a non-empty text over these; it holds no comma, slash or space. */
  lemma PlainNameExactly(s: string)
    ensures PlainName(s) <==> |s| > 0 && forall i :: 0 <= i < |s| ==> PlainCode(s[i] as int)
    ensures PlainName(s) ==> ',' !in s && '/' !in s && ' ' !in s
  {
    forall c ensures PlainChar(c) <==> PlainCode(c as int) {
    }
    assert (forall c :: c in s ==> PlainChar(c)) <==> forall i :: 0 <= i < |s| ==> PlainChar(s[i]);
  }
}

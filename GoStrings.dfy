/**
 * The few functions of Go's `strings` package that the package listing
 * parser and the version normaliser rely on, for a one-character separator:
 * `strings.Index`, `strings.IndexAny`, `strings.Split` and `strings.Join`.
 * Go returns -1 from the two searches when nothing is found; so do these.
 */
module GoStrings {

  /** Position of the first `c` in `s`, or -1 when `s` has none. */
  function Index(s: string, c: char): (r: int)
    ensures -1 <= r < |s|
    ensures r == -1 <==> c !in s
    ensures 0 <= r ==> s[r] == c && forall i :: 0 <= i < r ==> s[i] != c
  {
    if |s| == 0 then -1
    else if s[0] == c then 0
    else
      var k := Index(s[1..], c);
      if k == -1 then -1 else k + 1
  }

  /** Position of the first character of `s` that is in `cs`, or -1 when there is none. */
  function IndexAny(s: string, cs: set<char>): (r: int)
    ensures -1 <= r < |s|
    ensures r == -1 <==> forall i :: 0 <= i < |s| ==> s[i] !in cs
    ensures 0 <= r ==> s[r] in cs && forall i :: 0 <= i < r ==> s[i] !in cs
  {
    if |s| == 0 then -1
    else if s[0] in cs then 0
    else
      var k := IndexAny(s[1..], cs);
      if k == -1 then -1 else k + 1
  }

  /** Number of occurrences of `c` in `s`. */
  function Count(s: string, c: char): nat
  {
    if |s| == 0 then 0 else (if s[0] == c then 1 else 0) + Count(s[1..], c)
  }

  /**
   * The pieces of `s` between occurrences of `sep`: one more piece than
   * there are separators, the empty string giving one empty piece.
   */
  function Split(s: string, sep: char): (parts: seq<string>)
    ensures |parts| >= 1
    decreases |s|
  {
    var k := Index(s, sep);
    if k == -1 then [s] else [s[..k]] + Split(s[k + 1..], sep)
  }

  /** The pieces `parts` with one `sep` between each two neighbours. */
  function Join(parts: seq<string>, sep: char): string
  {
    if |parts| == 0 then ""
    else if |parts| == 1 then parts[0]
    else parts[0] + [sep] + Join(parts[1..], sep)
  }

  lemma {:induction false} CountAppend(a: string, b: string, c: char)
    ensures Count(a + b, c) == Count(a, c) + Count(b, c)
  {
    if |a| > 0 {
      assert (a + b)[1..] == a[1..] + b;
      CountAppend(a[1..], b, c);
    } else {
      assert a + b == b;
    }
  }

  lemma CountAbsent(s: string, c: char)
    requires c !in s
    ensures Count(s, c) == 0
  {
    if |s| > 0 {
      CountAbsent(s[1..], c);
    }
  }

  /** Splitting yields exactly one more piece than there are separators. */
  lemma {:induction false} SplitLength(s: string, sep: char)
    ensures |Split(s, sep)| == Count(s, sep) + 1
    decreases |s|
  {
    var k := Index(s, sep);
    if k == -1 {
      CountAbsent(s, sep);
    } else {
      SplitLength(s[k + 1..], sep);
      assert s == s[..k] + [sep] + s[k + 1..];
      CountAppend(s[..k] + [sep], s[k + 1..], sep);
      CountAppend(s[..k], [sep], sep);
      CountAbsent(s[..k], sep);
    }
  }

  /** Joining the pieces of a split gives back the string that was split. */
  lemma {:induction false} JoinSplit(s: string, sep: char)
    ensures Join(Split(s, sep), sep) == s
    decreases |s|
  {
    var k := Index(s, sep);
    if k != -1 {
      var tail := s[k + 1..];
      JoinSplit(tail, sep);
      JoinCons(s[..k], Split(tail, sep), sep);
      SplitAt(s, k, sep);
    }
  }

  /** A string is its text before position `k`, the separator at `k`, and the rest. */
  lemma SplitAt(s: string, k: int, sep: char)
    requires 0 <= k < |s| && s[k] == sep
    ensures s == s[..k] + [sep] + s[k + 1..]
  {
  }

  /** Joining a list of two or more pieces puts `sep` after its first piece. */
  lemma JoinCons(head: string, rest: seq<string>, sep: char)
    requires |rest| >= 1
    ensures Join([head] + rest, sep) == head + [sep] + Join(rest, sep)
  {
    assert ([head] + rest)[1..] == rest;
  }

  /** The first piece of `Join(parts, sep)` when no piece holds `sep`. */
  lemma {:induction false} IndexJoin(parts: seq<string>, sep: char)
    requires |parts| >= 2
    requires forall i :: 0 <= i < |parts| ==> sep !in parts[i]
    ensures Index(Join(parts, sep), sep) == |parts[0]|
    ensures Join(parts, sep)[..|parts[0]|] == parts[0]
    ensures Join(parts, sep)[|parts[0]| + 1..] == Join(parts[1..], sep)
  {
    var j := Join(parts, sep);
    assert j == parts[0] + [sep] + Join(parts[1..], sep);
    assert j[|parts[0]|] == sep;
    assert j[..|parts[0]|] == parts[0];
  }

  /** Splitting a join of separator-free pieces gives back the pieces. */
  lemma {:induction false} SplitJoin(parts: seq<string>, sep: char)
    requires |parts| >= 1
    requires forall i :: 0 <= i < |parts| ==> sep !in parts[i]
    ensures Split(Join(parts, sep), sep) == parts
    decreases |parts|
  {
    if |parts| == 1 {
      assert Index(parts[0], sep) == -1;
    } else {
      IndexJoin(parts, sep);
      SplitJoin(parts[1..], sep);
      assert [parts[0]] + parts[1..] == parts;
    }
  }
}

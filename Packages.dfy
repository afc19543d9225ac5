/**
 * The listing parser `getPackages` of internal/packages.go: it reads the
 * text that `dpkg-query -W -f='${Package} ${Version}\n'` prints, one
 * "<name> <version>" line per package, and maps each package name to its
 * normalised version. Empty lines and lines that do not split on ' ' into
 * exactly two fields are skipped; a later line for a name overwrites an
 * earlier one.
 *
 * `Collect` states the map built from a sequence of lines; `GetPackages`
 * builds it with the loop of the source.
 */
module Packages {
  import opened GoStrings
  import opened Versions

  /** A line the parser keeps: non-empty, and exactly two fields when split on ' '. */
  predicate Accepted(line: string)
  {
    |line| > 0 && |Split(line, ' ')| == 2
  }

  /** The package name of a kept line: its first field. */
  function Name(line: string): string
    requires Accepted(line)
  {
    Split(line, ' ')[0]
  }

  /** The raw dpkg version of a kept line: its second field. */
  function RawVersion(line: string): string
    requires Accepted(line)
  {
    Split(line, ' ')[1]
  }

  /** One line's effect on the map: a kept line stores its name, a skipped line does nothing. */
  function Step(m: map<string, string>, line: string): map<string, string>
  {
    if Accepted(line) then m[Name(line) := Normalize(RawVersion(line))] else m
  }

  /** The map from package name to normalised version built from `lines`, in order. */
  function Collect(lines: seq<string>): map<string, string>
  {
    if |lines| == 0 then map[] else Step(Collect(lines[..|lines| - 1]), lines[|lines| - 1])
  }

  /** `getPackages`: split the output into lines and fill the map, skipping bad lines. */
  method GetPackages(output: string) returns (packages: map<string, string>)
    ensures packages == Collect(Split(output, '\n'))
  {
    packages := ParseLines(Split(output, '\n'));
  }

  /** The loop of `getPackages` over the lines of the output. */
  method ParseLines(lines: seq<string>) returns (packages: map<string, string>)
    ensures packages == Collect(lines)
  {
    packages := map[];
    for n := 0 to |lines|
      invariant packages == Collect(lines[..n])
    {
      var line := lines[n];
      assert lines[..n + 1] == lines[..n] + [line];
      CollectSnoc(lines[..n], line);
      if |line| == 0 {
        continue;
      }
      var parts := Split(line, ' ');
      if |parts| != 2 {
        continue;
      }
      var packageName := parts[0];
      var packageVersion := GetVersion(parts[1]);
      packages := packages[packageName := packageVersion];
    }
    assert lines[..|lines|] == lines;
  }

  /**
   * A line is kept exactly when it holds one space: no space, or two or
   * more, and the line is skipped.
   */
  lemma AcceptedOneSpace(line: string)
    ensures Accepted(line) <==> Count(line, ' ') == 1
  {
    SplitLength(line, ' ');
    if |line| == 0 {
      assert Count(line, ' ') == 0;
    }
  }

  /** A name is a key of the map exactly when some kept line carries it. */
  lemma {:induction false} CollectKeys(lines: seq<string>, k: string)
    ensures k in Collect(lines) <==>
      exists i :: 0 <= i < |lines| && Accepted(lines[i]) && Name(lines[i]) == k
  {
    if |lines| > 0 {
      var init := lines[..|lines| - 1];
      var line := lines[|lines| - 1];
      assert lines == init + [line];
      CollectSnoc(init, line);
      CollectKeys(init, k);
      if k in Collect(init) {
        var i :| 0 <= i < |init| && Accepted(init[i]) && Name(init[i]) == k;
        assert lines[i] == init[i];
      }
      if exists i :: 0 <= i < |lines| && Accepted(lines[i]) && Name(lines[i]) == k {
        var i :| 0 <= i < |lines| && Accepted(lines[i]) && Name(lines[i]) == k;
        if i < |init| {
          assert init[i] == lines[i];
        }
      }
    }
  }

  /** The value stored for a name is the normalised version of the last kept line with that name. */
  lemma {:induction false} CollectLastWins(lines: seq<string>, i: nat)
    requires i < |lines| && Accepted(lines[i])
    requires forall j :: i < j < |lines| && Accepted(lines[j]) ==> Name(lines[j]) != Name(lines[i])
    ensures Name(lines[i]) in Collect(lines)
    ensures Collect(lines)[Name(lines[i])] == Normalize(RawVersion(lines[i]))
  {
    var init := lines[..|lines| - 1];
    assert lines == init + [lines[|lines| - 1]];
    CollectSnoc(init, lines[|lines| - 1]);
    if i < |lines| - 1 {
      assert init[i] == lines[i];
      forall j | i < j < |init| && Accepted(init[j])
        ensures Name(init[j]) != Name(init[i])
      {
        assert init[j] == lines[j];
      }
      CollectLastWins(init, i);
    }
  }

  /** Every value in the map is three numerals separated by '.'. */
  lemma {:induction false} CollectCanonical(lines: seq<string>)
    ensures forall k :: k in Collect(lines) ==> IsCanonical(Collect(lines)[k])
  {
    if |lines| > 0 {
      var line := lines[|lines| - 1];
      assert lines == lines[..|lines| - 1] + [line];
      CollectSnoc(lines[..|lines| - 1], line);
      CollectCanonical(lines[..|lines| - 1]);
      if Accepted(line) {
        NormalizeCanonical(RawVersion(line));
      }
    }
  }

  /** Appending a line applies its step to the map built so far. */
  lemma CollectSnoc(lines: seq<string>, line: string)
    ensures Collect(lines + [line]) == Step(Collect(lines), line)
  {
    assert (lines + [line])[..|lines|] == lines;
  }

  /** A skipped line changes nothing, and the lines after it are still parsed. */
  lemma {:induction false} CollectSkips(pre: seq<string>, bad: string, post: seq<string>)
    requires !Accepted(bad)
    ensures Collect(pre + [bad] + post) == Collect(pre + post)
    decreases |post|
  {
    if |post| == 0 {
      assert pre + [bad] + post == pre + [bad];
      assert pre + post == pre;
      CollectSnoc(pre, bad);
    } else {
      var init := post[..|post| - 1];
      var last := post[|post| - 1];
      assert pre + [bad] + post == (pre + [bad] + init) + [last];
      assert pre + post == (pre + init) + [last];
      CollectSnoc(pre + [bad] + init, last);
      CollectSnoc(pre + init, last);
      CollectSkips(pre, bad, init);
    }
  }

  /** The number of kept lines. */
  function AcceptedCount(lines: seq<string>): nat
  {
    if |lines| == 0 then 0
    else AcceptedCount(lines[..|lines| - 1]) + if Accepted(lines[|lines| - 1]) then 1 else 0
  }

  /** Kept lines whose names are pairwise distinct. */
  predicate DistinctNames(lines: seq<string>)
  {
    forall i, j :: 0 <= i < j < |lines| && Accepted(lines[i]) && Accepted(lines[j]) ==>
      Name(lines[i]) != Name(lines[j])
  }

  /** When no name repeats, the map has one entry per kept line. */
  lemma {:induction false} CollectSize(lines: seq<string>)
    requires DistinctNames(lines)
    ensures |Collect(lines)| == AcceptedCount(lines)
  {
    if |lines| > 0 {
      var init := lines[..|lines| - 1];
      var line := lines[|lines| - 1];
      assert lines == init + [line];
      CollectSnoc(init, line);
      assert DistinctNames(init) by {
        forall i, j | 0 <= i < j < |init| && Accepted(init[i]) && Accepted(init[j])
          ensures Name(init[i]) != Name(init[j])
        {
          assert init[i] == lines[i] && init[j] == lines[j];
        }
      }
      CollectSize(init);
      if Accepted(line) {
        forall i | 0 <= i < |init| && Accepted(init[i])
          ensures Name(init[i]) != Name(line)
        {
          assert init[i] == lines[i];
        }
        CollectKeys(init, Name(line));
      }
    }
  }
}

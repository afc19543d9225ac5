/**
 * The version normaliser `getVersion` of internal/packages.go: it reduces a
 * dpkg version string `[epoch:]upstream_version[-debian_revision]` to exactly
 * three dot-separated decimal numerals. It is total and lossy; it does not
 * order versions the way dpkg does.
 *
 * The steps, in order:
 *   1. drop everything up to and including the first ':' (the epoch);
 *   2. cut at the first '-', '+' or '~' (revision and build suffixes);
 *   3. split on '.';
 *   4. cut each segment at its first character that is not an ASCII digit;
 *   5. strip the leading '0's of each segment, a segment left with no digit
 *      becoming "0";
 *   6. pad with "0" segments, or drop the extra ones, to exactly three;
 *   7. join with '.'.
 *
 * `Normalize` states the whole transform as a composition of one function
 * per step, `GetVersion` runs the same steps with the loops of the source,
 * and `Numbers` gives the independent numeric reading of a version that
 * `NormalizeRenders` proves the normaliser's output to be.
 */
module Versions {
  import opened GoStrings
  import opened Numerals

  /** The characters that start a revision or build suffix. */
  const SuffixMarks: set<char> := {'-', '+', '~'}

  /** Step 1: the text after the first ':', or all of `v` when it has none. */
  function StripEpoch(v: string): (r: string)
    ensures |r| <= |v| && r == v[|v| - |r|..]
    ensures ':' !in v ==> r == v
    ensures ':' in v ==> |r| < |v| && v[|v| - |r| - 1] == ':' && ':' !in v[..|v| - |r| - 1]
  {
    var k := Index(v, ':');
    if k == -1 then v else v[k + 1..]
  }

  /** Step 2: the longest prefix of `v` without a suffix mark. */
  function StripSuffix(v: string): (r: string)
    ensures |r| <= |v| && r == v[..|r|]
    ensures forall i :: 0 <= i < |r| ==> r[i] !in SuffixMarks
    ensures |r| < |v| ==> v[|r|] in SuffixMarks
  {
    var k := IndexAny(v, SuffixMarks);
    if k == -1 then v else v[..k]
  }

  /** Step 4: the longest prefix of `seg` made of digits. */
  function DigitPrefix(seg: string): (r: string)
    ensures |r| <= |seg| && r == seg[..|r|]
    ensures AllDigits(r)
    ensures |r| < |seg| ==> !IsDigit(seg[|r|])
  {
    if |seg| == 0 || !IsDigit(seg[0]) then "" else [seg[0]] + DigitPrefix(seg[1..])
  }

  /**
   * Step 5: `d` without its leading '0's; "0" when nothing else is left,
   * so that "0", "00" and "" all become "0".
   */
  function StripZeros(d: string): (r: string)
    ensures (r == "0" && forall i :: 0 <= i < |d| ==> d[i] == '0')
         || (0 < |r| <= |d| && r == d[|d| - |r|..] && r[0] != '0')
    ensures forall i :: 0 <= i < |d| - |r| ==> d[i] == '0'
  {
    if |d| == 0 then "0"
    else if d[0] == '0' then StripZeros(d[1..])
    else d
  }

  /** On a digit string, step 5 yields a numeral with the same value. */
  lemma {:induction false} StripZerosValue(d: string)
    requires AllDigits(d)
    ensures IsNumeral(StripZeros(d)) && Value(StripZeros(d)) == Value(d)
  {
    if |d| > 0 && d[0] == '0' {
      StripZerosValue(d[1..]);
      LeadingZero(d[1..]);
      assert d == ['0'] + d[1..];
    }
  }

  /** Steps 4 and 5 on one segment: the numeral of its leading digits. */
  function Component(seg: string): (r: string)
    ensures IsNumeral(r)
  {
    StripZerosValue(DigitPrefix(seg));
    StripZeros(DigitPrefix(seg))
  }

  /** A component is the decimal rendering of the value of the segment's leading digits. */
  lemma ComponentValue(seg: string)
    ensures Component(seg) == Decimal(Value(DigitPrefix(seg)))
  {
    StripZerosValue(DigitPrefix(seg));
    DecimalValue(Component(seg));
  }

  /** Steps 4 and 5 on every segment. */
  function Components(segs: seq<string>): (r: seq<string>)
    ensures |r| == |segs|
  {
    seq(|segs|, i requires 0 <= i < |segs| => Component(segs[i]))
  }

  /** Step 6: the first three of `parts`, missing ones filled with "0". */
  function Pad3(parts: seq<string>): (r: seq<string>)
    ensures |r| == 3
    ensures forall i :: 0 <= i < 3 ==> r[i] == if i < |parts| then parts[i] else "0"
    decreases 3 - |parts|
  {
    if |parts| < 3 then Pad3(parts + ["0"]) else parts[..3]
  }

  /** Step 3 after steps 1 and 2: the dot-separated segments of a version. */
  function Segments(v: string): seq<string>
  {
    Split(StripSuffix(StripEpoch(v)), '.')
  }

  /** Steps 2 to 7 on a version whose epoch is already gone. */
  function Reduce(u: string): string
  {
    Join(Pad3(Components(Split(StripSuffix(u), '.'))), '.')
  }

  /** The normalised version: all seven steps. */
  function Normalize(v: string): string
  {
    Reduce(StripEpoch(v))
  }

  /** Three numerals joined by '.', the shape of every normalised version. */
  predicate IsCanonical(s: string)
  {
    var ps := Split(s, '.');
    |ps| == 3 && IsNumeral(ps[0]) && IsNumeral(ps[1]) && IsNumeral(ps[2])
  }

  /** The numeric reading of a normalised version. */
  datatype Release = Release(major: nat, minor: nat, patch: nat)

  /** The decimal rendering of a release, "major.minor.patch". */
  function Render(t: Release): string
  {
    Decimal(t.major) + "." + Decimal(t.minor) + "." + Decimal(t.patch)
  }

  /** The value of the leading digits of segment `i`, 0 when there is no such segment. */
  function NumberAt(segs: seq<string>, i: nat): nat
  {
    if i < |segs| then Value(DigitPrefix(segs[i])) else 0
  }

  /** The three numbers a version denotes, independently of how they are rendered. */
  function Numbers(v: string): Release
  {
    var segs := Segments(v);
    Release(NumberAt(segs, 0), NumberAt(segs, 1), NumberAt(segs, 2))
  }

  /** `Join` of three pieces, written out. */
  lemma {:induction false} JoinThree(ps: seq<string>)
    requires |ps| == 3
    ensures Join(ps, '.') == ps[0] + "." + ps[1] + "." + ps[2]
  {
    assert Join(ps, '.') == ps[0] + ['.'] + Join(ps[1..], '.');
    assert Join(ps[1..], '.') == ps[1] + ['.'] + Join(ps[2..], '.');
  }

  /** A numeral holds no '.'. */
  lemma NumeralNoDot(s: string)
    requires IsNumeral(s)
    ensures '.' !in s
  {
    assert forall i :: 0 <= i < |s| ==> s[i] != '.' by {
      forall i | 0 <= i < |s| ensures s[i] != '.' {
        assert IsDigit(s[i]);
      }
    }
  }

  /** The output of the normaliser is the rendering of the version's three numbers. */
  lemma NormalizeRenders(v: string)
    ensures Normalize(v) == Render(Numbers(v))
  {
    var segs := Segments(v);
    var ps := Pad3(Components(segs));
    JoinThree(ps);
    forall i | 0 <= i < 3
      ensures ps[i] == Decimal(NumberAt(segs, i))
    {
      if i < |segs| {
        assert ps[i] == Component(segs[i]);
        ComponentValue(segs[i]);
      }
    }
  }

  /** Splitting a normalised version on '.' gives back its three numerals. */
  lemma NormalizeSplit(v: string)
    ensures Split(Normalize(v), '.') == Pad3(Components(Segments(v)))
    ensures forall i :: 0 <= i < 3 ==> IsNumeral(Pad3(Components(Segments(v)))[i])
  {
    var segs := Segments(v);
    var ps := Pad3(Components(segs));
    assert Normalize(v) == Join(ps, '.');
    assert IsNumeral("0");
    forall i | 0 <= i < 3
      ensures IsNumeral(ps[i]) && '.' !in ps[i]
    {
      if i < |segs| {
        assert ps[i] == Component(segs[i]);
      }
      NumeralNoDot(ps[i]);
    }
    SplitJoin(ps, '.');
  }

  /** Every normalised version is three numerals separated by '.'. */
  lemma NormalizeCanonical(v: string)
    ensures IsCanonical(Normalize(v))
  {
    NormalizeSplit(v);
  }

  /** A digit string is its own digit prefix. */
  lemma {:induction false} DigitPrefixAll(d: string)
    requires AllDigits(d)
    ensures DigitPrefix(d) == d
  {
    if |d| > 0 {
      DigitPrefixAll(d[1..]);
      assert d == [d[0]] + d[1..];
    }
  }

  /** A numeral has no leading zero to strip. */
  lemma StripZerosNumeral(d: string)
    requires IsNumeral(d)
    ensures StripZeros(d) == d
  {
  }

  /** A numeral is a component unchanged. */
  lemma ComponentNumeral(d: string)
    requires IsNumeral(d)
    ensures Component(d) == d
  {
    DigitPrefixAll(d);
    StripZerosNumeral(d);
  }

  /** Text made of ASCII digits and '.' only. */
  predicate DigitsAndDots(s: string)
  {
    forall i :: 0 <= i < |s| ==> IsDigit(s[i]) || s[i] == '.'
  }

  /** Digit strings joined with '.' are digits and dots only. */
  lemma {:induction false} JoinDigits(parts: seq<string>)
    requires forall i :: 0 <= i < |parts| ==> AllDigits(parts[i])
    ensures DigitsAndDots(Join(parts, '.'))
  {
    if |parts| == 1 {
      assert AllDigits(parts[0]);
    } else if |parts| >= 2 {
      JoinDigits(parts[1..]);
      var head, tail := parts[0], Join(parts[1..], '.');
      var j := Join(parts, '.');
      assert j == head + ['.'] + tail;
      assert AllDigits(head);
      forall i | 0 <= i < |j|
        ensures IsDigit(j[i]) || j[i] == '.'
      {
        if i < |head| {
          assert j[i] == head[i];
        } else if i > |head| {
          assert j[i] == tail[i - |head| - 1];
        }
      }
    }
  }

  /** Canonical text holds only digits and dots: no epoch and no suffix mark. */
  lemma CanonicalChars(s: string)
    requires IsCanonical(s)
    ensures ':' !in s
    ensures forall i :: 0 <= i < |s| ==> s[i] !in SuffixMarks
  {
    var ps := Split(s, '.');
    assert AllDigits(ps[0]) && AllDigits(ps[1]) && AllDigits(ps[2]);
    forall i | 0 <= i < |ps|
      ensures AllDigits(ps[i])
    {
      assert i == 0 || i == 1 || i == 2;
    }
    JoinDigits(ps);
    JoinSplit(s, '.');
    forall i | 0 <= i < |s|
      ensures s[i] != ':' && s[i] !in SuffixMarks
    {
      assert IsDigit(s[i]) || s[i] == '.';
    }
  }

  /** Version text that is already canonical comes back unchanged. */
  lemma CanonicalUnchanged(s: string)
    requires IsCanonical(s)
    ensures Normalize(s) == s
  {
    CanonicalChars(s);
    assert StripEpoch(s) == s;
    assert StripSuffix(s) == s;
    var ps := Split(s, '.');
    var cs := Components(ps);
    forall i | 0 <= i < 3
      ensures cs[i] == ps[i]
    {
      ComponentNumeral(ps[i]);
    }
    var qs := Pad3(cs);
    assert qs == ps;
    calc {
      Normalize(s);
      Reduce(s);
      Join(qs, '.');
      { JoinSplit(s, '.'); }
      s;
    }
  }

  /** Normalising twice is normalising once. */
  lemma NormalizeIdempotent(v: string)
    ensures Normalize(Normalize(v)) == Normalize(v)
  {
    NormalizeCanonical(v);
    CanonicalUnchanged(Normalize(v));
  }

  /** The rendering of a release is canonical and reads back as that release. */
  lemma RenderRoundTrip(t: Release)
    ensures IsCanonical(Render(t))
    ensures Numbers(Render(t)) == t
    ensures Normalize(Render(t)) == Render(t)
  {
    var r := Render(t);
    var ps := [Decimal(t.major), Decimal(t.minor), Decimal(t.patch)];
    JoinThree(ps);
    assert r == Join(ps, '.');
    forall i | 0 <= i < 3
      ensures '.' !in ps[i] && DigitPrefix(ps[i]) == ps[i]
    {
      NumeralNoDot(ps[i]);
      DigitPrefixAll(ps[i]);
    }
    SplitJoin(ps, '.');
    assert Split(r, '.') == ps;
    assert IsCanonical(r);
    CanonicalUnchanged(r);
    CanonicalChars(r);
    assert StripEpoch(r) == r;
    assert StripSuffix(r) == r;
    assert Segments(r) == ps;
    assert NumberAt(ps, 0) == t.major;
    assert NumberAt(ps, 1) == t.minor;
    assert NumberAt(ps, 2) == t.patch;
  }

  /** Step 1: an epoch is discarded and normalisation goes on with the rest. */
  lemma EpochDiscarded(e: string, u: string)
    requires ':' !in e
    ensures Normalize(e + ":" + u) == Reduce(u)
    ensures ':' !in u ==> Normalize(e + ":" + u) == Normalize(u)
  {
    var v := e + ":" + u;
    assert v[|e|] == ':' && v[..|e|] == e;
    var k := Index(v, ':');
    assert k == |e|;
    assert v[k + 1..] == u;
  }

  /** Step 2: everything from the first suffix mark on is discarded. */
  lemma SuffixDiscarded(p: string, m: char, t: string)
    requires m in SuffixMarks
    requires forall i :: 0 <= i < |p| ==> p[i] !in SuffixMarks
    ensures Reduce(p + [m] + t) == Reduce(p)
  {
    var v := p + [m] + t;
    assert v[..|p|] == p && v[|p|] == m;
    assert StripSuffix(v) == p;
    assert StripSuffix(p) == p;
  }

  /** Step 4: a segment is cut at its first non-digit. */
  lemma {:induction false} DigitsCut(d: string, t: string)
    requires AllDigits(d)
    requires |t| == 0 || !IsDigit(t[0])
    ensures DigitPrefix(d + t) == d
  {
    if |d| > 0 {
      assert (d + t)[1..] == d[1..] + t;
      DigitsCut(d[1..], t);
      assert d == [d[0]] + d[1..];
    } else {
      assert d + t == t;
    }
  }

  /** Step 5: leading zeros are removed from a segment, and a lone "0" stays. */
  lemma {:induction false} ZerosStripped(z: string, d: string)
    requires forall i :: 0 <= i < |z| ==> z[i] == '0'
    requires IsNumeral(d)
    ensures Component(z + d) == d
    decreases |z|
  {
    var s := z + d;
    assert AllDigits(s) by {
      forall i | 0 <= i < |s| ensures IsDigit(s[i]) {
        if i >= |z| { assert s[i] == d[i - |z|]; }
      }
    }
    DigitPrefixAll(s);
    ZerosPrefix(z, d);
    StripZerosNumeral(d);
  }

  lemma {:induction false} ZerosPrefix(z: string, d: string)
    requires forall i :: 0 <= i < |z| ==> z[i] == '0'
    requires IsNumeral(d)
    ensures StripZeros(z + d) == StripZeros(d)
    decreases |z|
  {
    if |z| > 0 {
      assert (z + d)[1..] == z[1..] + d;
      ZerosPrefix(z[1..], d);
    } else {
      assert z + d == d;
    }
  }

  /** Step 5 on a segment of '0's only, empty included: the documented rule gives "0". */
  lemma {:induction false} StripZerosAllZero(d: string)
    requires forall i :: 0 <= i < |d| ==> d[i] == '0'
    ensures StripZeros(d) == "0"
  {
    if |d| > 0 {
      StripZerosAllZero(d[1..]);
    }
  }

  /** Step 6: the result has three components, missing ones 0, extra ones dropped. */
  lemma Arity(v: string)
    ensures |Split(Normalize(v), '.')| == 3
    ensures forall i :: 0 <= i < 3 && i >= |Segments(v)| ==> Split(Normalize(v), '.')[i] == "0"
    ensures forall i :: 0 <= i < 3 && i < |Segments(v)| ==>
      Split(Normalize(v), '.')[i] == Component(Segments(v)[i])
  {
    NormalizeSplit(v);
  }

  /** The loop of step 4 stops where `DigitPrefix` does. */
  lemma {:induction false} DigitPrefixAt(seg: string, j: nat)
    requires j <= |seg|
    requires forall k :: 0 <= k < j ==> IsDigit(seg[k])
    requires j == |seg| || !IsDigit(seg[j])
    ensures DigitPrefix(seg) == seg[..j]
  {
    if j > 0 {
      DigitPrefixAt(seg[1..], j - 1);
      assert seg[..j] == [seg[0]] + seg[1..][..j - 1];
    }
  }

  /** The loop of step 5 stops where `StripZeros` does. */
  lemma {:induction false} StripZerosAt(d: string, j: nat)
    requires j <= |d|
    requires forall k :: 0 <= k < j ==> d[k] == '0'
    requires j == |d| || d[j] != '0'
    ensures StripZeros(d) == if j == |d| then "0" else d[j..]
  {
    if j > 0 {
      StripZerosAt(d[1..], j - 1);
      assert d[1..][j - 1..] == d[j..];
    }
  }

  /** `Pad3` is determined by its three components. */
  lemma Pad3Of(parts: seq<string>, ps: seq<string>)
    requires |ps| == 3
    requires forall i :: 0 <= i < 3 ==> ps[i] == if i < |parts| then parts[i] else "0"
    ensures ps == Pad3(parts)
  {
  }

  /** The scan of step 4 over one segment: stop at the first non-digit. */
  method LeadingDigits(part: string) returns (cut: string)
    ensures cut == DigitPrefix(part)
  {
    cut := part;
    var j := 0;
    while j < |part|
      invariant 0 <= j <= |part|
      invariant cut == part
      invariant forall k :: 0 <= k < j ==> IsDigit(part[k])
    {
      if !IsDigit(part[j]) {
        cut := part[..j];
        break;
      }
      j := j + 1;
    }
    DigitPrefixAt(part, j);
  }

  /** The scan of step 5 over one segment: start at the first non-zero, or give "0". */
  method TrimZeros(part: string) returns (trimmed: string)
    ensures trimmed == StripZeros(part)
  {
    trimmed := part;
    var j := 0;
    while j < |part|
      invariant 0 <= j <= |part|
      invariant trimmed == part
      invariant forall k :: 0 <= k < j ==> part[k] == '0'
    {
      if part[j] != '0' {
        trimmed := part[j..];
        break;
      }
      j := j + 1;
    }
    if j == |part| {
      trimmed := "0";
    }
    StripZerosAt(part, j);
  }

  /** The pass of step 4: keep the leading digits of each segment. */
  method KeepDigits(segments: seq<string>) returns (parts: seq<string>)
    ensures |parts| == |segments|
    ensures forall k :: 0 <= k < |parts| ==> parts[k] == DigitPrefix(segments[k])
  {
    parts := segments;
    var i := 0;
    while i < |parts|
      invariant 0 <= i <= |parts| == |segments|
      invariant forall k :: 0 <= k < i ==> parts[k] == DigitPrefix(segments[k])
      invariant forall k :: i <= k < |parts| ==> parts[k] == segments[k]
    {
      var cut := LeadingDigits(parts[i]);
      parts := parts[i := cut];
      i := i + 1;
    }
  }

  /** The pass of step 5: strip the leading zeros of each segment. */
  method TrimAll(digits: seq<string>) returns (parts: seq<string>)
    ensures |parts| == |digits|
    ensures forall k :: 0 <= k < |parts| ==> parts[k] == StripZeros(digits[k])
  {
    parts := digits;
    var i := 0;
    while i < |parts|
      invariant 0 <= i <= |parts| == |digits|
      invariant forall k :: 0 <= k < i ==> parts[k] == StripZeros(digits[k])
      invariant forall k :: i <= k < |parts| ==> parts[k] == digits[k]
    {
      var trimmed := TrimZeros(parts[i]);
      parts := parts[i := trimmed];
      i := i + 1;
    }
  }

  /** Step 6: pad with "0" segments, or drop the extra ones, to exactly three. */
  method PadToThree(components: seq<string>) returns (parts: seq<string>)
    ensures parts == Pad3(components)
  {
    parts := components;
    while |parts| < 3
      invariant |components| <= |parts|
      invariant forall k :: 0 <= k < |parts| ==>
        parts[k] == if k < |components| then components[k] else "0"
      decreases 3 - |parts|
    {
      parts := parts + ["0"];
    }
    if |parts| > 3 {
      parts := parts[..3];
    }
    Pad3Of(components, parts);
  }

  /** Steps 4 to 6 with the passes of the source. */
  method EditSegments(segments: seq<string>) returns (parts: seq<string>)
    ensures parts == Pad3(Components(segments))
  {
    var digits := KeepDigits(segments);
    var trimmed := TrimAll(digits);
    assert trimmed == Components(segments);
    parts := PadToThree(trimmed);
  }

  /**
   * `getVersion`: the epoch and suffix cuts, the split on '.', the edits
   * of `EditSegments` and the join.
   */
  method GetVersion(version: string) returns (r: string)
    ensures r == Normalize(version)
  {
    var v := version;
    var colon := Index(v, ':');
    if colon != -1 {
      v := v[colon + 1..];
    }
    assert v == StripEpoch(version);
    var dash := IndexAny(v, SuffixMarks);
    if dash != -1 {
      v := v[..dash];
    }
    assert v == StripSuffix(StripEpoch(version));
    var parts := EditSegments(Split(v, '.'));
    r := Join(parts, '.');
  }
}

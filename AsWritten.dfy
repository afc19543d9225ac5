/**
 * `getVersion` as internal/packages.go has it, next to the normaliser the
 * tests expect (`Versions.Normalize`). The live body returns its argument
 * unchanged; the algorithm above it is commented out, and as written it
 * returns early after an epoch, leaves all-zero segments alone and, for
 * three segments or fewer, hands back the cut string instead of the edited
 * segments. Each lemma here shows one of these departures from
 * `Normalize`.
 */
module AsWritten {
  import opened GoStrings
  import opened Numerals
  import opened Versions

  /** The live body of `getVersion`: the version comes back as it went in. */
  function StubGetVersion(version: string): string
  {
    version
  }

  /** The leading-zero pass as written: a segment with no digit other than '0' stays as it is. */
  function TrimAsWritten(d: string): string
  {
    if forall i :: 0 <= i < |d| ==> d[i] == '0' then d else StripZeros(d)
  }

  /** The commented-out segment passes: leading digits, then leading zeros as written. */
  function EditedAsWritten(parts: seq<string>): (r: seq<string>)
    ensures |r| == |parts|
  {
    seq(|parts|, i requires 0 <= i < |parts| => TrimAsWritten(DigitPrefix(parts[i])))
  }

  /** `n` copies of ".0". */
  function DotZeros(n: nat): string
  {
    if n == 0 then "" else ".0" + DotZeros(n - 1)
  }

  /**
   * The commented-out algorithm as written: it returns straight after an
   * epoch; otherwise it cuts the suffix, and only with more than three
   * segments does it return the edited segments; with fewer it pads the
   * cut string, and with exactly three it returns the cut string.
   */
  function CommentedGetVersion(version: string): string
  {
    var colon := Index(version, ':');
    if colon != -1 then version[colon + 1..]
    else
      var v := StripSuffix(version);
      var parts := Split(v, '.');
      if |parts| < 3 then v + DotZeros(3 - |parts|)
      else if |parts| > 3 then Join(EditedAsWritten(parts)[..3], '.')
      else v
  }

  /** Every normalised version is canonical, so a non-canonical answer is a wrong one. */
  lemma CommentedWrong(v: string)
    requires !IsCanonical(CommentedGetVersion(v))
    ensures CommentedGetVersion(v) != Normalize(v)
  {
    NormalizeCanonical(v);
  }

  /** The live stub disagrees with the normaliser on every version that is not already canonical. */
  lemma StubWrong(v: string)
    requires !IsCanonical(v)
    ensures StubGetVersion(v) != Normalize(v)
  {
    NormalizeCanonical(v);
  }

  /** In particular the stub keeps every epoch, which a normalised version never holds. */
  lemma StubKeepsEpoch(v: string)
    requires ':' in v
    ensures StubGetVersion(v) != Normalize(v)
  {
    NormalizeCanonical(v);
    CanonicalChars(Normalize(v));
  }

  /** As written, a version with an epoch comes back as the text after it, unedited. */
  lemma CommentedEpoch(e: string, u: string)
    requires ':' !in e
    ensures CommentedGetVersion(e + ":" + u) == u
  {
    var v := e + ":" + u;
    assert v[|e|] == ':';
    assert v[..|e|] == e;
    var k := Index(v, ':');
    assert k == |e|;
    assert v[k + 1..] == u;
  }

  /** As written, a segment of two or more '0's keeps them all, where step 5 leaves "0". */
  lemma TrimKeepsZeros(d: string)
    requires |d| >= 2 && forall i :: 0 <= i < |d| ==> d[i] == '0'
    ensures TrimAsWritten(d) == d && !IsNumeral(d)
    ensures StripZeros(d) == "0"
  {
    StripZerosAllZero(d);
  }

  /** Text of digits and dots has neither an epoch nor a suffix to cut. */
  lemma DigitsAndDotsUncut(v: string)
    requires DigitsAndDots(v)
    ensures ':' !in v && Index(v, ':') == -1
    ensures StripSuffix(v) == v
  {
    forall i | 0 <= i < |v|
      ensures v[i] != ':' && v[i] !in SuffixMarks
    {
      assert IsDigit(v[i]) || v[i] == '.';
    }
  }

  /** "2:1.2.3", which the tests expect as "1.2.3", comes back from the stub with its epoch. */
  lemma StubExample()
    ensures StubGetVersion("2:1.2.3") == "2:1.2.3"
    ensures StubGetVersion("2:1.2.3") != Normalize("2:1.2.3")
  {
    assert "2:1.2.3"[1] == ':';
    StubKeepsEpoch("2:1.2.3");
  }

  /** "24:1.2", which the tests expect as "1.2.0", comes back as "1.2" from the early return. */
  lemma EpochExample()
    ensures CommentedGetVersion("24:1.2") == "1.2"
    ensures CommentedGetVersion("24:1.2") != Normalize("24:1.2")
  {
    assert "24:1.2" == "24" + ":" + "1.2";
    CommentedEpoch("24", "1.2");
    SplitLength("1.2", '.');
    assert Count("1.2", '.') == 1;
    CommentedWrong("24:1.2");
  }

  /** "01.2.3" is the three segments "01", "2" and "3", of digits and dots only. */
  lemma ThreeText()
    ensures DigitsAndDots("01.2.3") && Join(["01", "2", "3"], '.') == "01.2.3"
  {
  }

  /** "01.2.3", which the tests expect as "1.2.3", comes back with its leading zero. */
  lemma ThreeExample()
    ensures CommentedGetVersion("01.2.3") == "01.2.3"
    ensures CommentedGetVersion("01.2.3") != Normalize("01.2.3")
  {
    ThreeText();
    DigitsAndDotsUncut("01.2.3");
    SplitJoin(["01", "2", "3"], '.');
    assert !IsNumeral("01");
    CommentedWrong("01.2.3");
  }

  /** As written, more than three segments come back as the first three after the passes. */
  lemma CommentedLong(v: string, segs: seq<string>)
    requires Index(v, ':') == -1
    requires Split(StripSuffix(v), '.') == segs && |segs| > 3
    ensures CommentedGetVersion(v) == Join(EditedAsWritten(segs)[..3], '.')
  {
  }

  /** The passes as written leave only digits in a segment, so no '.'. */
  lemma EditedNoDot(seg: string)
    ensures '.' !in TrimAsWritten(DigitPrefix(seg))
  {
    var d := DigitPrefix(seg);
    var t := TrimAsWritten(d);
    assert AllDigits(t) by {
      if t != d && t != "0" {
        assert t == d[|d| - |t|..];
        forall i | 0 <= i < |t|
          ensures IsDigit(t[i])
        {
          assert t[i] == d[|d| - |t| + i];
        }
      }
    }
    forall i | 0 <= i < |t|
      ensures t[i] != '.'
    {
      assert IsDigit(t[i]);
    }
  }

  /** Three edited segments, one of them still two or more '0's, do not join into a canonical version. */
  lemma ZerosNotCanonical(segs: seq<string>, k: nat)
    requires |segs| >= 3 && k < 3 && |segs[k]| >= 2
    requires forall i :: 0 <= i < |segs[k]| ==> segs[k][i] == '0'
    ensures !IsCanonical(Join(EditedAsWritten(segs)[..3], '.'))
  {
    var zeros := segs[k];
    var out := EditedAsWritten(segs)[..3];
    assert AllDigits(zeros) by {
      forall i | 0 <= i < |zeros|
        ensures IsDigit(zeros[i])
      {
        assert zeros[i] == '0';
      }
    }
    DigitPrefixAll(zeros);
    TrimKeepsZeros(zeros);
    assert out[k] == TrimAsWritten(DigitPrefix(zeros)) == zeros;
    forall i | 0 <= i < 3
      ensures '.' !in out[i]
    {
      EditedNoDot(segs[i]);
    }
    SplitJoin(out, '.');
    assert !IsNumeral(out[k]);
    assert k == 0 || k == 1 || k == 2;
  }

  /**
   * With more than three segments, one of the first three made of two or
   * more '0's (as in "1.00.3.4", which comes back as "1.00.3"), the answer
   * as written is not the normalised version.
   */
  lemma ZerosKept(v: string, segs: seq<string>, k: nat)
    requires Index(v, ':') == -1
    requires Split(StripSuffix(v), '.') == segs && |segs| > 3
    requires k < 3 && |segs[k]| >= 2
    requires forall i :: 0 <= i < |segs[k]| ==> segs[k][i] == '0'
    ensures CommentedGetVersion(v) != Normalize(v)
  {
    CommentedLong(v, segs);
    ZerosNotCanonical(segs, k);
    CommentedWrong(v);
  }
}

/**
 * Versions from internal/packages_test.go, each normalised to the string
 * the test expects. Every vector is taken apart into its epoch, suffix and
 * segments, and the step lemmas of `Versions` do the rest; the facts about
 * each literal are kept in small lemmas of their own.
 */
module Vectors {
  import opened GoStrings
  import opened Numerals
  import opened Versions

  /** Steps 2 to 7 on text without a suffix mark, given by its dot-free segments. */
  lemma ReduceOfSegments(u: string, segs: seq<string>)
    requires |segs| >= 1 && Join(segs, '.') == u
    requires forall i :: 0 <= i < |segs| ==> '.' !in segs[i]
    requires forall i :: 0 <= i < |u| ==> u[i] !in SuffixMarks
    ensures Reduce(u) == Join(Pad3(Components(segs)), '.')
  {
    assert StripSuffix(u) == u;
    SplitJoin(segs, '.');
  }

  /** A version without ':' has no epoch to strip. */
  lemma NoEpoch(v: string)
    requires forall i :: 0 <= i < |v| ==> v[i] != ':'
    ensures Normalize(v) == Reduce(v)
  {
    assert ':' !in v;
  }

  /** Step 6 on segments whose first three components are `a`, `b` and `c`. */
  lemma ThreeComponents(segs: seq<string>, a: string, b: string, c: string)
    requires |segs| >= 3
    requires Component(segs[0]) == a && Component(segs[1]) == b && Component(segs[2]) == c
    ensures Pad3(Components(segs)) == [a, b, c]
  {
  }

  /** Step 6 on two segments whose components are `a` and `b`: the patch is "0". */
  lemma TwoComponents(segs: seq<string>, a: string, b: string)
    requires |segs| == 2
    requires Component(segs[0]) == a && Component(segs[1]) == b
    ensures Pad3(Components(segs)) == [a, b, "0"]
  {
  }

  // "24:1.2" (packages_test.go, the second epoch case)

  lemma EpochCut()
    ensures Normalize("24:1.2") == Reduce("1.2")
  {
    assert "24:1.2" == "24" + ":" + "1.2";
    EpochDiscarded("24", "1.2");
  }

  lemma EpochSegments()
    ensures Reduce("1.2") == Join(Pad3(Components(["1", "2"])), '.')
  {
    assert Join(["1", "2"], '.') == "1.2";
    ReduceOfSegments("1.2", ["1", "2"]);
  }

  lemma EpochParts(segs: seq<string>)
    requires segs == ["1", "2"]
    ensures Component(segs[0]) == "1" && Component(segs[1]) == "2"
  {
    ComponentNumeral("1");
    ComponentNumeral("2");
  }

  lemma EpochText()
    ensures Join(["1", "2", "0"], '.') == "1.2.0"
  {
  }

  /** "24:1.2" normalises to "1.2.0": the epoch goes and the missing patch is 0. */
  lemma EpochVector()
    ensures Normalize("24:1.2") == "1.2.0"
  {
    EpochCut();
    EpochSegments();
    EpochParts(["1", "2"]);
    TwoComponents(["1", "2"], "1", "2");
    EpochText();
  }

  // "1.2.3-1~ubuntu1" (packages_test.go, the first suffix case)

  lemma SuffixCut()
    ensures Normalize("1.2.3-1~ubuntu1") == Reduce("1.2.3")
  {
    NoEpoch("1.2.3-1~ubuntu1");
    SuffixMarkAt();
  }

  lemma SuffixMarkAt()
    ensures Reduce("1.2.3-1~ubuntu1") == Reduce("1.2.3")
  {
    assert "1.2.3-1~ubuntu1" == "1.2.3" + ['-'] + "1~ubuntu1";
    SuffixDiscarded("1.2.3", '-', "1~ubuntu1");
  }

  lemma SuffixSegments()
    ensures Reduce("1.2.3") == Join(Pad3(Components(["1", "2", "3"])), '.')
  {
    assert Join(["1", "2", "3"], '.') == "1.2.3";
    ReduceOfSegments("1.2.3", ["1", "2", "3"]);
  }

  lemma SuffixParts(segs: seq<string>)
    requires segs == ["1", "2", "3"]
    ensures Component(segs[0]) == "1" && Component(segs[1]) == "2" && Component(segs[2]) == "3"
  {
    ComponentNumeral("1");
    ComponentNumeral("2");
    ComponentNumeral("3");
  }

  lemma SuffixText()
    ensures Join(["1", "2", "3"], '.') == "1.2.3"
  {
  }

  /** "1.2.3-1~ubuntu1" normalises to "1.2.3": everything from the '-' on is cut. */
  lemma SuffixVector()
    ensures Normalize("1.2.3-1~ubuntu1") == "1.2.3"
  {
    SuffixCut();
    SuffixSegments();
    SuffixParts(["1", "2", "3"]);
    ThreeComponents(["1", "2", "3"], "1", "2", "3");
    SuffixText();
  }

  // "25.22ubuntu1.44mystring1" (packages_test.go, the third letters case)

  lemma LettersCut()
    ensures Normalize("25.22ubuntu1.44mystring1") == Reduce("25.22ubuntu1.44mystring1")
  {
    NoEpoch("25.22ubuntu1.44mystring1");
  }

  lemma LettersSegments()
    ensures Reduce("25.22ubuntu1.44mystring1")
      == Join(Pad3(Components(["25", "22ubuntu1", "44mystring1"])), '.')
  {
    assert Join(["25", "22ubuntu1", "44mystring1"], '.') == "25.22ubuntu1.44mystring1";
    ReduceOfSegments("25.22ubuntu1.44mystring1", ["25", "22ubuntu1", "44mystring1"]);
  }

  /** A numeral followed by a non-digit: the segment's component is the numeral. */
  lemma NumeralThenLetters(d: string, t: string)
    requires IsNumeral(d) && |t| > 0 && !IsDigit(t[0])
    ensures Component(d + t) == d
  {
    DigitsCut(d, t);
    StripZerosNumeral(d);
  }

  lemma LettersParts(segs: seq<string>)
    requires segs == ["25", "22ubuntu1", "44mystring1"]
    ensures Component(segs[0]) == "25" && Component(segs[1]) == "22" && Component(segs[2]) == "44"
  {
    ComponentNumeral("25");
    assert segs[1] == "22" + "ubuntu1";
    NumeralThenLetters("22", "ubuntu1");
    assert segs[2] == "44" + "mystring1";
    NumeralThenLetters("44", "mystring1");
  }

  lemma LettersText()
    ensures Join(["25", "22", "44"], '.') == "25.22.44"
  {
  }

  /** "25.22ubuntu1.44mystring1" normalises to "25.22.44": each segment keeps its leading digits. */
  lemma LettersVector()
    ensures Normalize("25.22ubuntu1.44mystring1") == "25.22.44"
  {
    LettersCut();
    LettersSegments();
    LettersParts(["25", "22ubuntu1", "44mystring1"]);
    ThreeComponents(["25", "22ubuntu1", "44mystring1"], "25", "22", "44");
    LettersText();
  }

  // "01.2.3" (packages_test.go, the first leading-zero case)

  lemma ZeroCut()
    ensures Normalize("01.2.3") == Reduce("01.2.3")
  {
    NoEpoch("01.2.3");
  }

  lemma ZeroSegments()
    ensures Reduce("01.2.3") == Join(Pad3(Components(["01", "2", "3"])), '.')
  {
    assert Join(["01", "2", "3"], '.') == "01.2.3";
    ReduceOfSegments("01.2.3", ["01", "2", "3"]);
  }

  lemma ZeroComponent()
    ensures Component("01") == "1"
  {
    assert "01" == "0" + "1";
    ZerosStripped("0", "1");
  }

  lemma ZeroParts(segs: seq<string>)
    requires segs == ["01", "2", "3"]
    ensures Component(segs[0]) == "1" && Component(segs[1]) == "2" && Component(segs[2]) == "3"
  {
    ZeroComponent();
    ComponentNumeral("2");
    ComponentNumeral("3");
  }

  lemma ZeroText()
    ensures Join(["1", "2", "3"], '.') == "1.2.3"
  {
  }

  /** "01.2.3" normalises to "1.2.3": the leading zero goes. */
  lemma LeadingZeroVector()
    ensures Normalize("01.2.3") == "1.2.3"
  {
    ZeroCut();
    ZeroSegments();
    ZeroParts(["01", "2", "3"]);
    ThreeComponents(["01", "2", "3"], "1", "2", "3");
    ZeroText();
  }

  // "25.2.5.1.6" (packages_test.go, the second arity case)

  lemma LongCut()
    ensures Normalize("25.2.5.1.6") == Reduce("25.2.5.1.6")
  {
    NoEpoch("25.2.5.1.6");
  }

  lemma LongSegments()
    ensures Reduce("25.2.5.1.6") == Join(Pad3(Components(["25", "2", "5", "1", "6"])), '.')
  {
    assert Join(["25", "2", "5", "1", "6"], '.') == "25.2.5.1.6";
    ReduceOfSegments("25.2.5.1.6", ["25", "2", "5", "1", "6"]);
  }

  lemma LongParts(segs: seq<string>)
    requires segs == ["25", "2", "5", "1", "6"]
    ensures Component(segs[0]) == "25" && Component(segs[1]) == "2" && Component(segs[2]) == "5"
  {
    ComponentNumeral("25");
    ComponentNumeral("2");
    ComponentNumeral("5");
  }

  lemma LongText()
    ensures Join(["25", "2", "5"], '.') == "25.2.5"
  {
  }

  /** "25.2.5.1.6" normalises to "25.2.5": segments after the third are dropped. */
  lemma LongVector()
    ensures Normalize("25.2.5.1.6") == "25.2.5"
  {
    LongCut();
    LongSegments();
    LongParts(["25", "2", "5", "1", "6"]);
    ThreeComponents(["25", "2", "5", "1", "6"], "25", "2", "5");
    LongText();
  }
}

# Installed-package version normaliser

A Dafny model of the core of an apt/dpkg package collector. The collector
reads the listing that `dpkg-query -W -f='${Package} ${Version}\n'` prints,
one `name version` line per installed package. It builds a map from package
name to a normalised `major.minor.patch` version. The model covers the two
functions of `internal/packages.go` that do this:

- `getVersion` reduces a dpkg version `[epoch:]upstream_version[-debian_revision]`
  to three dot-separated decimal numerals. The steps, in order:
  1. drop the epoch;
  2. cut at the first `-`, `+` or `~`;
  3. split on `.`;
  4. keep the leading digits of each segment;
  5. strip their leading zeros;
  6. pad with `0` or truncate to three segments;
  7. join with `.`.
- `getPackages` splits the listing into lines and skips empty lines and lines
  that do not split on a space into exactly two fields. It stores
  `name -> getVersion(field 2)`, so a later line overwrites an earlier one
  with the same name.

Modules:

- `GoStrings` — the parts of Go's `strings` package the code relies on:
  `Index`, `IndexAny`, `Split` and `Join` for a one-character separator. The
  searches return -1 when nothing is found, as in Go. The module proves the
  split/join round trips.
- `Numerals` — digit strings, their value, and `Decimal`, the one numeral
  without superfluous leading zeros that renders a number.
- `Versions` — `getVersion`. There is one function per step and
  `Normalize`, their composition. `GetVersion` is a method with the loops
  of the source, proved equal to `Normalize`. `Numbers`/`Render` give a
  numeric reading of a version that is independent of steps 5 to 7. The
  lemmas state each step's effect on whole versions, plus the shape,
  idempotence and round trips of the result.
- `Packages` — `getPackages`. `Collect` is the map built from a sequence of
  lines. `GetPackages`/`ParseLines` build it with the source's loop. The
  lemmas cover which names are keys, which value wins, skipped lines, and
  the size of the map.
- `AsWritten` — `getVersion` as the file has it: the live stub and the
  commented-out algorithm. It has lemmas showing where each departs from
  `Normalize`; see Findings.
- `Vectors` — five versions from `internal/packages_test.go`, each proved
  to normalise to the string the test expects.

The code and its tests disagree on `getVersion`. The model follows the tests:

- The live body is `return version` (`internal/packages.go:110`). The
  algorithm is in comments (lines 65-108).
- As written, the commented algorithm would fail the tests in two places:
  - it returns straight after the epoch;
  - with three segments or fewer it returns the cut string instead of the
    edited segments.

  `Normalize` continues after the epoch and always joins the edited
  segments.

No test pins how a segment left empty by step 4 is rendered. Such segments
occur: in `apg 2.2.3.dfsg.1-5build3` (`internal/packages_test.go:138`) the
segment `dfsg` is emptied by step 4 and then dropped by step 6. No test
covers an all-zero segment (`00`) either. `Normalize` renders both as `0`,
so every component is a numeral.

## Model

| member | source | states |
|---|---|---|
| GoStrings.Index | internal/packages.go:66 | `strings.Index`: -1 exactly when the character is absent, otherwise the position of its first occurrence |
| GoStrings.IndexAny | internal/packages.go:71 | `strings.IndexAny`: -1 exactly when no character of the set occurs, otherwise the first position holding one |
| GoStrings.Split | internal/packages.go:45 | `strings.Split` for a one-character separator: the text between separators, never an empty list; characterised by `SplitLength`, `JoinSplit` and `SplitJoin` |
| GoStrings.Join | internal/packages.go:107 | `strings.Join`: the pieces with one separator between neighbours; `Split` inverts it on separator-free pieces (`SplitJoin`) |
| GoStrings.SplitLength | internal/packages.go:50-51 | splitting on a separator gives one more field than there are separators |
| GoStrings.JoinSplit | internal/packages.go:45 | joining the pieces of a split with the separator gives back the text that was split |
| GoStrings.SplitJoin | internal/packages.go:107 | splitting a join of separator-free pieces gives back the pieces |
| Numerals.Decimal | internal/packages.go:90-98 | the rendering of a number is a numeral without superfluous leading zeros and denotes that number |
| Numerals.DecimalValue | internal/packages.go:90-98 | every numeral is the rendering of its own value, so a numeral is determined by its value |
| Numerals.NumeralsEqual | internal/packages.go:90-98 | two numerals are equal exactly when their values are |
| Versions.StripEpoch | internal/packages.go:65-68 | step 1: the result is the text after the first ':'; it is the whole version when there is no ':' |
| Versions.StripSuffix | internal/packages.go:70-73 | step 2: the longest prefix without '-', '+' or '~'; the character after it is a suffix mark |
| Versions.DigitPrefix | internal/packages.go:78-88 | step 4: the longest all-digit prefix of a segment; the next character, if any, is not a digit |
| Versions.StripZeros | internal/packages.go:90-98 | step 5: only '0's are removed, and the result starts with a non-zero digit or is "0" |
| Versions.StripZerosValue | internal/packages.go:90-98 | on a digit string, step 5 yields a numeral with the same value |
| Versions.Component | internal/packages.go:78-98 | steps 4 and 5 always leave a numeral |
| Versions.ComponentValue | internal/packages.go:78-98 | a component is the decimal rendering of the value of the segment's leading digits |
| Versions.Pad3 | internal/packages.go:100-108 | step 6: exactly three parts, the given ones first and "0" for each missing one |
| Versions.Reduce | internal/packages.go:70-108 | steps 2 to 7 on a version whose epoch is gone: cut the suffix, split, keep leading digits, strip zeros, pad or truncate to three and join the edited segments |
| Versions.Normalize | internal/packages.go:64-111 | all seven steps: the commented algorithm with the epoch no longer returning early and the output always joined from the edited segments, as the tests expect; its properties are the lemmas below |
| Versions.NormalizeSplit | internal/packages.go:64-111 | splitting the result on '.' gives the three padded components, each a numeral |
| Versions.NormalizeCanonical | internal/packages.go:64-111 | every result is three numerals separated by '.' |
| Versions.NormalizeRenders | internal/packages.go:64-111 | the result is the rendering of the three numbers the version denotes, counting a missing segment as 0 |
| Versions.CanonicalChars | internal/packages.go:64-111 | a canonical version has no ':' and no suffix mark |
| Versions.CanonicalUnchanged | internal/packages_test.go:16-19 | a version that is already canonical comes back unchanged |
| Versions.NormalizeIdempotent | internal/packages.go:64-111 | normalising twice is normalising once |
| Versions.RenderRoundTrip | internal/packages.go:64-111 | a rendered release is canonical, reads back as the same release and is a fixed point of the normaliser |
| Versions.EpochDiscarded | internal/packages_test.go:28-37 | an epoch is dropped and the remaining steps still run on the rest |
| Versions.SuffixDiscarded | internal/packages.go:70-73 | everything from the first '-', '+' or '~' on has no effect on the result |
| Versions.DigitsCut | internal/packages.go:78-88 | a segment is cut at its first non-digit |
| Versions.ZerosStripped | internal/packages.go:90-98 | leading zeros in front of a numeral are dropped, so "00" becomes "0" and "025" becomes "25" |
| Versions.StripZerosAllZero | internal/packages.go:90-98 | the documented all-zero rule of step 5: a segment of '0's only, the empty one included, becomes "0" |
| Versions.Arity | internal/packages.go:100-108 | the result has three components: the first three segments' components, then "0" for each missing segment |
| Versions.DigitPrefixAt | internal/packages.go:81-87 | the scan of step 4 stops exactly where the digit prefix ends |
| Versions.StripZerosAt | internal/packages.go:92-97 | the scan of step 5 stops exactly where the leading zeros end |
| Versions.LeadingDigits | internal/packages.go:81-87 | the character loop of step 4 yields the digit prefix of the segment |
| Versions.TrimZeros | internal/packages.go:92-97 | the character loop of step 5 yields the segment without leading zeros, or "0" |
| Versions.KeepDigits | internal/packages.go:79-88 | the pass of step 4 replaces every segment by its digit prefix |
| Versions.TrimAll | internal/packages.go:91-98 | the pass of step 5 replaces every segment by its zero-stripped form |
| Versions.PadToThree | internal/packages.go:100-108 | the padding loop and the truncation give exactly `Pad3` of the components |
| Versions.EditSegments | internal/packages.go:78-108 | the passes of steps 4 to 6 give the three padded components |
| Versions.GetVersion | internal/packages.go:64-111 | the method's result is the normalised version |
| Packages.GetPackages | internal/packages.go:42-62 | the map built is `Collect` of the lines of the output |
| Packages.Accepted | internal/packages.go:46-53 | a line is kept when it is not empty and splits on ' ' into exactly two fields; `AcceptedOneSpace` characterises it |
| Packages.Step | internal/packages.go:55-58 | one kept line stores its name with the normalised second field, over any earlier entry; a skipped line leaves the map alone |
| Packages.Collect | internal/packages.go:45-59 | the map after all lines in order, each applying `Step`; characterised by the `Collect` lemmas below |
| Packages.ParseLines | internal/packages.go:45-59 | the loop leaves the map `Collect` gives for the lines it ran over |
| Packages.AcceptedOneSpace | internal/packages.go:50-53 | a line is kept exactly when it holds one space |
| Packages.CollectSkips | internal/packages.go:46-53 | a skipped line changes nothing, and the lines after it are still parsed |
| Packages.CollectKeys | internal/packages.go:55-58 | a name is a key exactly when it is the first field of some kept line |
| Packages.CollectLastWins | internal/packages.go:55-58 | a name maps to the normalised version of the last kept line with that name |
| Packages.CollectCanonical | internal/packages.go:56-58 | every value in the map is three numerals separated by '.' |
| Packages.CollectSize | internal/packages_test.go:164-167 | when no name repeats, the map has one entry per kept line |
| AsWritten.StubGetVersion | internal/packages.go:110 | the live body of `getVersion`: the version unchanged |
| AsWritten.TrimAsWritten | internal/packages.go:91-97 | the leading-zero pass as written: a segment with no digit other than '0' is left as it is |
| AsWritten.CommentedGetVersion | internal/packages.go:65-108 | the commented algorithm as written: the text after an epoch at once; otherwise the cut string padded with ".0" for fewer than three segments, the cut string itself for three, the first three edited segments joined for more |
| AsWritten.CommentedWrong | internal/packages.go:65-108 | an answer of the commented algorithm that is not canonical is not the normalised version |
| AsWritten.StubWrong | internal/packages.go:110 | the live body disagrees with the normaliser on every version that is not already canonical |
| AsWritten.StubKeepsEpoch | internal/packages.go:110 | the live body gets every version with an epoch wrong |
| AsWritten.StubExample | internal/packages.go:110 | "2:1.2.3" comes back unchanged from the live body, which is not its normalised version |
| AsWritten.CommentedEpoch | internal/packages.go:66-68 | as written, a version with an epoch comes back as the text after it, unedited |
| AsWritten.EpochExample | internal/packages.go:66-68 | as written, "24:1.2" comes back as "1.2", not its normalised version |
| AsWritten.ThreeExample | internal/packages.go:100-108 | as written, "01.2.3" comes back as "01.2.3", not its normalised version |
| AsWritten.TrimKeepsZeros | internal/packages.go:91-97 | as written, a segment of two or more '0's is left as it is and is not a numeral |
| AsWritten.EditedNoDot | internal/packages.go:78-97 | the passes as written leave no '.' in a segment |
| AsWritten.ZerosNotCanonical | internal/packages.go:91-107 | three edited segments of which one is still two or more '0's do not join into a canonical version |
| AsWritten.ZerosKept | internal/packages.go:91-107 | as written, a version with more than three segments, one of the first three all '0's, is answered wrongly |
| Vectors.EpochVector | internal/packages_test.go:34-37 | "24:1.2" normalises to "1.2.0" |
| Vectors.SuffixVector | internal/packages_test.go:46-49 | "1.2.3-1~ubuntu1" normalises to "1.2.3" |
| Vectors.LettersVector | internal/packages_test.go:81-84 | "25.22ubuntu1.44mystring1" normalises to "25.22.44" |
| Vectors.LeadingZeroVector | internal/packages_test.go:93-96 | "01.2.3" normalises to "1.2.3" |
| Vectors.LongVector | internal/packages_test.go:117-120 | "25.2.5.1.6" normalises to "25.2.5" |

## Left out

- `GetInstalledPackages` (`internal/packages.go:14-40`) is not part of this model. It runs `dpkg-query` through `bash` and logs stderr. A failed run returns an error and no map (lines 25-30). The model starts from the listing text.
- Logging (`hclog`) and the diagnostic step records are left out. This includes the package-count remark the tests look for (`internal/packages_test.go:206-207`). `CollectSize` states the count itself.
- `main.go`, `main_test.go` and `internal/debian-collector.go` are not part of this model. They are plugin plumbing, policy evaluation and an older shell/sed/awk pipeline.
- The tests call `getPackages(logger, text)` and get back the map with steps. The model follows the source's `getPackages(output)`, which returns only the map.
- Packages.GetPackages: the map's values have Go type `any` and are modelled as `string`, since `getVersion` only ever stores strings.
- GoStrings.Index: positions count characters, not the UTF-8 bytes Go counts. The two agree on the ASCII text of dpkg listings.
- GoStrings.Split: only single-character separators are modelled, which are the only ones the code uses.
- Debian version ordering (section 5.6.12 of the Debian Policy Manual) is left out: the code does not implement it.
- Only five of the test vectors of `internal/packages_test.go` are restated, in `Vectors`, one per rule. The other vectors exercise the same rules, which the step lemmas state for every input: `EpochDiscarded`, `SuffixDiscarded`, `DigitsCut`, `ZerosStripped` and `Arity`.

## Findings

| source | as written | input that shows it | evidently intended | confidence | as-written member | corrected member |
|---|---|---|---|---|---|---|
| internal/packages.go:110 | the live body returns the version unchanged | `2:1.2.3`: comes back as `2:1.2.3` | `1.2.3`, the algorithm in the comments above it (internal/packages_test.go:28-31) | high, not executed | AsWritten.StubExample | Versions.GetVersion |
| internal/packages.go:66-68 | the epoch branch returns the rest of the string at once | `24:1.2`: comes back as `1.2` | `1.2.0`: the remaining steps run after the epoch is dropped (internal/packages_test.go:34-37) | high, not executed | AsWritten.EpochExample | Versions.EpochDiscarded |
| internal/packages.go:100-108 | with three segments or fewer the edited segments are never joined; the cut string comes back, padded with `.0` | `01.2.3`: comes back as `01.2.3` | `1.2.3`: the output is built from the edited segments (internal/packages_test.go:93-96) | high, not executed | AsWritten.ThreeExample | Versions.NormalizeCanonical |
| internal/packages.go:91-97 | a segment with no digit other than '0' keeps all its zeros | `1.00.3.4`: comes back as `1.00.3` | `1.0.3`: every component is a numeral | medium (no test covers it), not executed | AsWritten.ZerosKept | Versions.ZerosStripped |

/** The self-update check of the root command (cmd/root.go) and the version
    text it reads back from banner/banner.go: the latest version is taken
    from the first `const version =` line of banner.go as fetched, the
    current one from the output of `vulntechx -v`, and nothing is installed
    when the two are equal. */
module Version {
  import opened Wrappers
  import opened Strings

  // ---------------------------------------------------------------------------
  // The producer: banner/banner.go

  /** The `version` constant. */
  const BannerVersion := "v0.0.4"

  /** The text in front of the version in both `PrintVersion` and the banner's tagline. */
  const VersionMarker := "Current vulntechx version "

  /** `PrintVersion`'s output. */
  function PrintVersionOutput(version: string): string
  {
    VersionMarker + version + "\n"
  }

  function Spaces(n: nat): (r: string)
    ensures |r| == n && forall i | 0 <= i < n :: r[i] == ' '
  {
    if n == 0 then "" else " " + Spaces(n - 1)
  }

  /** The spaces `fmt`'s `%60s` puts in front of `s`: right-aligned in 60
      runes, never cut. */
  function Padding60(s: string): (r: string)
    ensures forall i | 0 <= i < |r| :: r[i] == ' '
    ensures |s| < 60 ==> |r| + |s| == 60
    ensures |s| >= 60 ==> r == ""
  {
    if |s| < 60 then Spaces(60 - |s|) else ""
  }

  /** Standard output of `vulntechx -v`: `Execute` prints the banner (the
      ASCII art, then the padded tagline) before `PrintVersion` runs. */
  function VersionFlagOutput(art: string, version: string): string
  {
    art + "\n" + Padding60(VersionMarker + version) + VersionMarker + version
      + ("\n\n" + PrintVersionOutput(version))
  }

  /** Lines 1-7 of banner.go, up to the `version` constant. */
  const BannerPreamble: seq<string> :=
    ["package banner", "", "import (", "\t\"fmt\"", ")", "", "// prints the version message"]

  /** Line 8 of banner.go, for a given value of the constant. */
  function ConstantLine(version: string): string
  {
    "const version = \"" + version + "\""
  }

  /** The first eight lines of banner.go. */
  function BannerSourceHead(version: string): seq<string>
  {
    BannerPreamble + [ConstantLine(version)]
  }

  // ---------------------------------------------------------------------------
  // getLatestVersion

  /** Why a version could not be had. */
  datatype VersionError =
    | CommandFailed         // `vulntechx -v` could not be run
    | CurrentNotFound       // "current version not found in output"
    | FetchFailed           // the HTTP request, a non-200 status or reading the body
    | LatestNotFound        // "version not found in response"
    | SliceOutOfRange       // Go's runtime panic: the line is shorter than the slice offset

  /** What `getLatestVersion` tests a line for... */
  const LatestPrefix := "const version ="

  /** ...and where it slices that line: the length of `const version = `. */
  const LatestOffset := 16

  /** The value read from a line that starts with `const version =`: from
      offset 16 on, trimmed, then stripped of all `"` at both ends. */
  function ExtractVersion(line: string): Result<string, VersionError>
    requires LatestPrefix <= line
  {
    if |line| < LatestOffset then Err(SliceOutOfRange)
    else Ok(TrimRune(TrimSpace(line[LatestOffset..]), '"'))
  }

  /** The loop over the body's lines, returning at the first match. */
  function LatestFromLines(lines: seq<string>): Result<string, VersionError>
  {
    if lines == [] then Err(LatestNotFound)
    else if LatestPrefix <= lines[0] then ExtractVersion(lines[0])
    else LatestFromLines(lines[1..])
  }

  /** `getLatestVersion` given the fetched body of banner.go. */
  function LatestVersion(body: string): Result<string, VersionError>
  {
    LatestFromLines(Split(body, "\n"))
  }

  /** The first line with the prefix decides; later ones are never looked
      at; with no such line the result is "version not found". */
  lemma {:induction false} LatestFromFirstMatch(lines: seq<string>, k: nat)
    requires k <= |lines|
    requires forall j | 0 <= j < k :: !(LatestPrefix <= lines[j])
    ensures k < |lines| && LatestPrefix <= lines[k] ==> LatestFromLines(lines) == ExtractVersion(lines[k])
    ensures k == |lines| ==> LatestFromLines(lines) == Err(LatestNotFound)
  {
    if k > 0 {
      LatestFromFirstMatch(lines[1..], k - 1);
    }
  }

  /** The slice can only fail on a line that is exactly `const version =`;
      any successful value has no `"` at either end. */
  lemma ExtractVersionOutcome(line: string)
    requires LatestPrefix <= line
    ensures ExtractVersion(line) == Err(SliceOutOfRange) <==> line == LatestPrefix
    ensures ExtractVersion(line).Ok? ==>
      var v := ExtractVersion(line).value;
      v == [] || (v[0] != '"' && v[|v| - 1] != '"')
  {
    if |line| < LatestOffset {
      assert line == line[..|LatestPrefix|];
    }
  }

  lemma TrimQuotes(v: string)
    requires v == [] || (v[0] != '"' && v[|v| - 1] != '"')
    ensures TrimRune("\"" + v + "\"", '"') == v
  {
    var q := "\"" + v + "\"";
    assert q[1..] == v + "\"";
    assert (v + "\"")[..|v|] == v;
    assert TrimRune(v, '"') == v;
    assert TrimRune(v + "\"", '"') == v;
  }

  /** Round trip with banner.go line 8: the constant's line gives back the
      constant, whatever it is, as long as it is not itself quoted or padded. */
  lemma ConstantLineGivesVersion(v: string)
    requires v == [] || (v[0] != '"' && v[|v| - 1] != '"')
    ensures ExtractVersion(ConstantLine(v)) == Ok(v)
  {
    var line := ConstantLine(v);
    assert LatestPrefix <= line;
    assert line[LatestOffset..] == "\"" + v + "\"";
    TrimSpaceOfTrimmed("\"" + v + "\"");
    TrimQuotes(v);
  }

  // ---------------------------------------------------------------------------
  // getCurrentVersion: `Current vulntechx version (v[0-9]+\.[0-9]+\.[0-9]+)`

  predicate IsDigit(c: char) {
    '0' <= c <= '9'
  }

  predicate AllDigits(d: string) {
    d != [] && forall i | 0 <= i < |d| :: IsDigit(d[i])
  }

  /** Length of the run of digits at `j`. */
  function DigitRun(s: string, j: nat): (n: nat)
    requires j <= |s|
    ensures j + n <= |s|
    decreases |s| - j
  {
    if j < |s| && IsDigit(s[j]) then 1 + DigitRun(s, j + 1) else 0
  }

  /** The run is all digits and stops at the end or at a non-digit. */
  lemma {:induction false} DigitRunSpec(s: string, j: nat)
    requires j <= |s|
    ensures forall i | j <= i < j + DigitRun(s, j) :: IsDigit(s[i])
    ensures j + DigitRun(s, j) == |s| || !IsDigit(s[j + DigitRun(s, j)])
    decreases |s| - j
  {
    if j < |s| && IsDigit(s[j]) {
      DigitRunSpec(s, j + 1);
    }
  }

  /** `[0-9]+\.` at `j`: the position after the dot. The `+` takes the whole
      run of digits, since a shorter run is followed by a digit, not `.`. */
  function GroupDot(s: string, j: nat): (r: Option<nat>)
    requires j <= |s|
    ensures r.Some? ==> j + 2 <= r.value <= |s|
  {
    var d := DigitRun(s, j);
    if d == 0 || j + d == |s| || s[j + d] != '.' then None else Some(j + d + 1)
  }

  /** `[0-9]+\.[0-9]+\.[0-9]+` at `a`: where the (greedy) last group ends. */
  function NumbersEnd(s: string, a: nat): (r: Option<nat>)
    requires a <= |s|
    ensures r.Some? ==> a + 5 <= r.value <= |s|
  {
    match GroupDot(s, a)
    case None => None
    case Some(b) =>
      match GroupDot(s, b)
      case None => None
      case Some(c) =>
        var d := DigitRun(s, c);
        if d == 0 then None else Some(c + d)
  }

  /** The capture of the pattern when a match starts at `i`. */
  function MatchAt(s: string, i: nat): Option<string>
    requires i <= |s|
  {
    var m := i + |VersionMarker|;
    if !IsAt(s, VersionMarker + "v", i) then None
    else
      match NumbersEnd(s, m + 1)
      case None => None
      case Some(e) => Some(s[m..e])
  }

  /** Leftmost match at or after `i`. */
  function FindFrom(s: string, i: nat): Option<string>
    requires i <= |s|
    decreases |s| - i
  {
    match MatchAt(s, i)
    case Some(v) => Some(v)
    case None => if i == |s| then None else FindFrom(s, i + 1)
  }

  /** `getCurrentVersion` given the output of `vulntechx -v`. */
  function CurrentVersion(output: string): Result<string, VersionError>
  {
    match FindFrom(output, 0)
    case Some(v) => Ok(v)
    case None => Err(CurrentNotFound)
  }

  /** `v` followed by three dot-separated digit groups. */
  function VersionString(d1: string, d2: string, d3: string): string
  {
    "v" + Join([d1, d2, d3], ".")
  }

  /** Three groups of digits separated by dots, stated without the matcher. */
  predicate IsNumbers(t: string)
  {
    var groups := Split(t, ".");
    |groups| == 3 && forall k | 0 <= k < 3 :: AllDigits(groups[k])
  }

  /** The text `v<digits>.<digits>.<digits>`. */
  predicate IsVersionString(v: string)
  {
    |v| >= 1 && v[0] == 'v' && IsNumbers(v[1..])
  }

  lemma DigitsLackRunes(d: string)
    requires AllDigits(d)
    ensures '.' !in d && '\n' !in d && '"' !in d
  {
    forall i | 0 <= i < |d| ensures d[i] != '.' && d[i] != '\n' && d[i] != '"' {
      assert IsDigit(d[i]);
    }
  }

  lemma JoinThree(d1: string, d2: string, d3: string)
    ensures Join([d1, d2, d3], ".") == d1 + "." + d2 + "." + d3
  {
    assert [d1, d2, d3][1..] == [d2, d3];
    assert [d2, d3][1..] == [d3];
    assert Join([d2, d3], ".") == d2 + "." + d3;
    assert d1 + "." + (d2 + "." + d3) == d1 + "." + d2 + "." + d3;
  }

  lemma NumbersOfGroups(d1: string, d2: string, d3: string)
    requires AllDigits(d1) && AllDigits(d2) && AllDigits(d3)
    ensures IsNumbers(Join([d1, d2, d3], "."))
  {
    DigitsLackRunes(d1);
    DigitsLackRunes(d2);
    DigitsLackRunes(d3);
    SplitJoin([d1, d2, d3], ".");
  }

  lemma VersionStringShape(d1: string, d2: string, d3: string)
    requires AllDigits(d1) && AllDigits(d2) && AllDigits(d3)
    ensures IsVersionString(VersionString(d1, d2, d3))
  {
    NumbersOfGroups(d1, d2, d3);
    assert VersionString(d1, d2, d3)[1..] == Join([d1, d2, d3], ".");
  }

  lemma DigitRunExact(s: string, j: nat, d: string)
    requires AllDigits(d) && j + |d| <= |s| && s[j..j + |d|] == d
    requires j + |d| == |s| || !IsDigit(s[j + |d|])
    ensures DigitRun(s, j) == |d|
  {
    DigitRunSpec(s, j);
    forall i | j <= i < j + |d| ensures IsDigit(s[i]) {
      assert s[i] == d[i - j];
    }
  }

  lemma GroupDotShape(s: string, j: nat)
    requires j <= |s| && GroupDot(s, j).Some?
    ensures AllDigits(s[j..GroupDot(s, j).value - 1])
    ensures s[GroupDot(s, j).value - 1] == '.'
  {
    DigitRunSpec(s, j);
    var n := GroupDot(s, j).value - 1;
    assert forall i | 0 <= i < n - j :: s[j..n][i] == s[j + i];
  }

  lemma SliceSplits(s: string, x: nat, y: nat, z: nat)
    requires x <= y <= z <= |s|
    ensures s[x..z] == s[x..y] + s[y..z]
  {
  }

  lemma NumbersEndGroups(s: string, a: nat) returns (g1: string, g2: string, g3: string)
    requires a <= |s| && NumbersEnd(s, a).Some?
    ensures AllDigits(g1) && AllDigits(g2) && AllDigits(g3)
    ensures s[a..NumbersEnd(s, a).value] == g1 + "." + g2 + "." + g3
  {
    var b := GroupDot(s, a).value;
    var c := GroupDot(s, b).value;
    var e := NumbersEnd(s, a).value;
    GroupDotShape(s, a);
    GroupDotShape(s, b);
    DigitRunSpec(s, c);
    g1, g2, g3 := s[a..b - 1], s[b..c - 1], s[c..e];
    assert forall i | 0 <= i < e - c :: g3[i] == s[c + i];
    DotSeparated(s, a, b, c, e);
  }

  /** A slice with a `.` just before `b` and just before `c` is its three
      pieces joined by `.`. */
  lemma DotSeparated(s: string, a: nat, b: nat, c: nat, e: nat)
    requires a < b < c <= e <= |s| && s[b - 1] == '.' && s[c - 1] == '.'
    ensures s[a..e] == s[a..b - 1] + "." + s[b..c - 1] + "." + s[c..e]
  {
    var x, y, z := s[a..b - 1], s[b..c - 1], s[c..e];
    SliceSplits(s, c - 1, c, e);
    assert s[c - 1..c] == ".";
    var t := s[c - 1..e];
    assert t == "." + z;
    SliceSplits(s, b, c - 1, e);
    var u := s[b..e];
    assert u == y + t;
    SliceSplits(s, b - 1, b, e);
    assert s[b - 1..b] == ".";
    assert s[b - 1..e] == "." + u;
    SliceSplits(s, a, b - 1, e);
    assert s[a..e] == x + ("." + u);
    DotsAssociate(x, y, z);
  }

  lemma DotsAssociate(x: string, y: string, z: string)
    ensures x + ("." + (y + ("." + z))) == x + "." + y + "." + z
  {
  }

  /** Whatever the numbers part matches is three dot-separated digit groups. */
  lemma NumbersEndShape(s: string, a: nat)
    requires a <= |s| && NumbersEnd(s, a).Some?
    ensures IsNumbers(s[a..NumbersEnd(s, a).value])
  {
    var g1, g2, g3 := NumbersEndGroups(s, a);
    JoinThree(g1, g2, g3);
    NumbersOfGroups(g1, g2, g3);
  }

  /** Whatever is captured has the version shape. */
  lemma MatchIsVersion(s: string, i: nat)
    requires i <= |s| && MatchAt(s, i).Some?
    ensures IsVersionString(MatchAt(s, i).value)
  {
    var m := i + |VersionMarker|;
    var e := NumbersEnd(s, m + 1).value;
    assert s[m] == 'v' by {
      assert s[i..i + |VersionMarker| + 1][|VersionMarker|] == s[m];
    }
    NumbersEndShape(s, m + 1);
    assert s[m..e][1..] == s[m + 1..e];
  }

  lemma {:induction false} FindIsVersion(s: string, i: nat)
    requires i <= |s| && FindFrom(s, i).Some?
    ensures IsVersionString(FindFrom(s, i).value)
    decreases |s| - i
  {
    if MatchAt(s, i).Some? {
      MatchIsVersion(s, i);
    } else {
      FindIsVersion(s, i + 1);
    }
  }

  /** The search returns the match at the leftmost position where one
      starts, and finds nothing exactly when no position has one. */
  lemma FindFromLeftmost(s: string, i: nat)
    requires i <= |s|
    ensures FindFrom(s, i).None? <==> forall j | i <= j <= |s| :: MatchAt(s, j).None?
    ensures FindFrom(s, i).Some? ==>
      exists j | i <= j <= |s| :: MatchAt(s, j) == FindFrom(s, i) && forall k | i <= k < j :: MatchAt(s, k).None?
  {
    FindFromNone(s, i);
    if FindFrom(s, i).Some? {
      var j := FindFromAt(s, i);
    }
  }

  lemma {:induction false} FindFromNone(s: string, i: nat)
    requires i <= |s|
    ensures FindFrom(s, i).None? <==> forall j | i <= j <= |s| :: MatchAt(s, j).None?
    decreases |s| - i
  {
    if MatchAt(s, i).None? && i < |s| {
      FindFromNone(s, i + 1);
    }
  }

  /** Where the search's result was found. */
  lemma {:induction false} FindFromAt(s: string, i: nat) returns (j: nat)
    requires i <= |s| && FindFrom(s, i).Some?
    ensures i <= j <= |s| && MatchAt(s, j) == FindFrom(s, i)
    ensures forall k | i <= k < j :: MatchAt(s, k).None?
    decreases |s| - i
  {
    if MatchAt(s, i).Some? {
      j := i;
    } else {
      j := FindFromAt(s, i + 1);
    }
  }

  /** `getCurrentVersion` fails with "current version not found" exactly when
      the pattern matches nowhere in the output; otherwise it returns the
      capture of the leftmost match. */
  lemma CurrentVersionLeftmost(output: string)
    ensures CurrentVersion(output) == Err(CurrentNotFound) <==>
      forall j | 0 <= j <= |output| :: MatchAt(output, j).None?
    ensures CurrentVersion(output).Ok? ==>
      exists j | 0 <= j <= |output| :: MatchAt(output, j) == Some(CurrentVersion(output).value)
        && forall k | 0 <= k < j :: MatchAt(output, k).None?
  {
    FindFromLeftmost(output, 0);
  }

  /** A successful `getCurrentVersion` returns a `v<digits>.<digits>.<digits>` string. */
  lemma CurrentVersionShape(output: string)
    ensures CurrentVersion(output).Ok? ==> IsVersionString(CurrentVersion(output).value)
  {
    if FindFrom(output, 0).Some? {
      FindIsVersion(output, 0);
    }
  }

  /** No match can start where there is no `C`. */
  lemma {:induction false} FindSkips(s: string, i: nat, j: nat)
    requires i <= j <= |s|
    requires forall k | i <= k < j :: s[k] != 'C'
    ensures FindFrom(s, i) == FindFrom(s, j)
    decreases j - i
  {
    if i < j {
      if i + |VersionMarker| + 1 <= |s| {
        assert s[i..i + |VersionMarker| + 1][0] == s[i];
      }
      FindSkips(s, i + 1, j);
    }
  }

  lemma GroupDotIn(s: string, j: nat, d: string)
    requires AllDigits(d) && j + |d| < |s|
    requires s[j..j + |d|] == d && s[j + |d|] == '.'
    ensures GroupDot(s, j) == Some(j + |d| + 1)
  {
    DigitRunExact(s, j, d);
  }

  /** `d1.d2.d3` sits at `a` in `s`, and no digit follows it. */
  predicate GroupsAtPos(s: string, a: nat, d1: string, d2: string, d3: string) {
    && a + |d1| + |d2| + |d3| + 2 <= |s|
    && s[a..a + |d1|] == d1 && s[a + |d1|] == '.'
    && s[a + |d1| + 1..a + |d1| + 1 + |d2|] == d2 && s[a + |d1| + 1 + |d2|] == '.'
    && s[a + |d1| + |d2| + 2..a + |d1| + |d2| + 2 + |d3|] == d3
    && (a + |d1| + |d2| + |d3| + 2 == |s| || !IsDigit(s[a + |d1| + |d2| + |d3| + 2]))
  }

  lemma NumbersEndIn(s: string, a: nat, d1: string, d2: string, d3: string)
    requires AllDigits(d1) && AllDigits(d2) && AllDigits(d3)
    requires GroupsAtPos(s, a, d1, d2, d3)
    ensures NumbersEnd(s, a) == Some(a + |d1| + |d2| + |d3| + 2)
  {
    GroupDotIn(s, a, d1);
    GroupDotIn(s, a + |d1| + 1, d2);
    DigitRunExact(s, a + |d1| + |d2| + 2, d3);
  }

  /** A match at `i` whose three groups sit at known places captures from
      the `v` to the end of the last group. */
  lemma MatchAtIn(s: string, i: nat, d1: string, d2: string, d3: string)
    requires AllDigits(d1) && AllDigits(d2) && AllDigits(d3)
    requires IsAt(s, VersionMarker + "v", i)
    requires GroupsAtPos(s, i + |VersionMarker| + 1, d1, d2, d3)
    ensures MatchAt(s, i)
      == Some(s[i + |VersionMarker|..i + |VersionMarker| + |d1| + |d2| + |d3| + 3])
  {
    NumbersEndIn(s, i + |VersionMarker| + 1, d1, d2, d3);
  }

  /** Where the marker `mk`, each group and each dot sit in a line holding
      `mk` followed by a version. */
  lemma VersionLaidOut(s: string, p: string, mk: string, v: string, d1: string, d2: string, d3: string, rest: string)
    requires v == VersionString(d1, d2, d3)
    requires s == p + mk + v + rest
    requires rest == [] || !IsDigit(rest[0])
    ensures IsAt(s, mk + "v", |p|)
    ensures GroupsAtPos(s, |p| + |mk| + 1, d1, d2, d3)
    ensures |v| == |d1| + |d2| + |d3| + 3
    ensures s[|p| + |mk|..|p| + |mk| + |v|] == v
  {
    FourParts(s, p, mk, v, rest);
    VersionPieces(v, d1, d2, d3);
    GroupsAt(s, |p| + |mk|, v, d1, d2, d3);
    assert s[|p|..|p| + |mk| + 1] == mk + "v";
  }

  /** The pieces of `p + mk + v + rest`, by position. */
  lemma FourParts(s: string, p: string, mk: string, v: string, rest: string)
    requires s == p + mk + v + rest
    ensures |s| == |p| + |mk| + |v| + |rest|
    ensures s[|p|..|p| + |mk|] == mk && s[|p| + |mk|..|p| + |mk| + |v|] == v
    ensures |p| + |mk| + |v| < |s| ==> rest != [] && s[|p| + |mk| + |v|] == rest[0]
  {
  }

  /** The groups of a version string that sits at `o` in `s`, by position. */
  lemma GroupsAt(s: string, o: nat, v: string, d1: string, d2: string, d3: string)
    requires o + |v| <= |s| && s[o..o + |v|] == v
    requires |v| == |d1| + |d2| + |d3| + 3 && v[0] == 'v'
    requires v[1..1 + |d1|] == d1 && v[1 + |d1|] == '.'
    requires v[2 + |d1|..2 + |d1| + |d2|] == d2 && v[2 + |d1| + |d2|] == '.'
    requires v[3 + |d1| + |d2|..] == d3
    ensures s[o] == 'v'
    ensures s[o + 1..o + 1 + |d1|] == d1 && s[o + 1 + |d1|] == '.'
    ensures s[o + 2 + |d1|..o + 2 + |d1| + |d2|] == d2 && s[o + 2 + |d1| + |d2|] == '.'
    ensures s[o + 3 + |d1| + |d2|..o + |v|] == d3
  {
    var i1, i2 := 1 + |d1|, 2 + |d1| + |d2|;
    SliceOfSlice(s, o, o + |v|, 1, i1);
    SliceOfSlice(s, o, o + |v|, i1 + 1, i2);
    SliceOfSlice(s, o, o + |v|, i2 + 1, |v|);
    assert s[o..o + |v|][0] == s[o];
    assert s[o..o + |v|][i1] == s[o + i1];
    assert s[o..o + |v|][i2] == s[o + i2];
  }

  /** Where the groups and dots sit in a version string. */
  lemma VersionPieces(v: string, d1: string, d2: string, d3: string)
    requires v == VersionString(d1, d2, d3)
    ensures |v| == |d1| + |d2| + |d3| + 3 && v[0] == 'v'
    ensures v[1..1 + |d1|] == d1 && v[1 + |d1|] == '.'
    ensures v[2 + |d1|..2 + |d1| + |d2|] == d2 && v[2 + |d1| + |d2|] == '.'
    ensures v[3 + |d1| + |d2|..] == d3
  {
    JoinThree(d1, d2, d3);
    var n := d1 + "." + d2 + "." + d3;
    assert v == "v" + n;
    assert v[1..] == n;
  }

  lemma MatchAtVersion(p: string, d1: string, d2: string, d3: string, rest: string)
    requires AllDigits(d1) && AllDigits(d2) && AllDigits(d3)
    requires rest == [] || !IsDigit(rest[0])
    ensures MatchAt(p + VersionMarker + VersionString(d1, d2, d3) + rest, |p|)
      == Some(VersionString(d1, d2, d3))
  {
    var v := VersionString(d1, d2, d3);
    var s := p + VersionMarker + v + rest;
    VersionLaidOut(s, p, VersionMarker, v, d1, d2, d3, rest);
    MatchAtIn(s, |p|, d1, d2, d3);
  }

  /** Round trip with banner.go line 11: a version printed after any text
      without a `C` (the ASCII art, the padding) and followed by anything
      that is not a digit is read back exactly. */
  lemma PrintedVersionParsesBack(p: string, d1: string, d2: string, d3: string, rest: string)
    requires 'C' !in p
    requires AllDigits(d1) && AllDigits(d2) && AllDigits(d3)
    requires rest == [] || !IsDigit(rest[0])
    ensures CurrentVersion(p + VersionMarker + VersionString(d1, d2, d3) + rest)
      == Ok(VersionString(d1, d2, d3))
  {
    var s := p + VersionMarker + VersionString(d1, d2, d3) + rest;
    assert forall k | 0 <= k < |p| :: s[k] == p[k];
    FindSkips(s, 0, |p|);
    MatchAtVersion(p, d1, d2, d3, rest);
  }

  /** The whole output of `vulntechx -v` gives back the version it printed;
      the match found is the one in the banner's tagline. */
  lemma VersionFlagOutputParsesBack(art: string, d1: string, d2: string, d3: string)
    requires 'C' !in art
    requires AllDigits(d1) && AllDigits(d2) && AllDigits(d3)
    ensures CurrentVersion(VersionFlagOutput(art, VersionString(d1, d2, d3))) == Ok(VersionString(d1, d2, d3))
  {
    var v := VersionString(d1, d2, d3);
    var pad := Padding60(VersionMarker + v);
    assert 'C' !in pad by {
      forall i | 0 <= i < |pad| ensures pad[i] != 'C' {
        assert pad[i] == ' ';
      }
    }
    PrintedVersionParsesBack(art + "\n" + pad, d1, d2, d3, "\n\n" + PrintVersionOutput(v));
  }

  // ---------------------------------------------------------------------------
  // checkAndUpdateTool

  /** What `checkAndUpdateTool` does after asking for both versions. */
  datatype Decision =
    | ExitCurrentError            // "Error fetching the current version"
    | ExitLatestError             // "Error fetching the latest version"
    | Crash                       // the slice panic inside getLatestVersion
    | UpToDate                    // "There is no latest update"
    | Install(from: string, to: string)   // `go install ...@latest`

  function Decide(current: Result<string, VersionError>, latest: Result<string, VersionError>): (d: Decision)
    ensures d == UpToDate <==> current.Ok? && latest.Ok? && current.value == latest.value
    ensures d.Install? ==> current.Ok? && latest.Ok? && d.from == current.value && d.to == latest.value && d.from != d.to
    ensures current.Err? ==> d == ExitCurrentError
    ensures current.Ok? && latest.Err? ==>
      d == (if latest.error == SliceOutOfRange then Crash else ExitLatestError)
    ensures current.Ok? && latest.Ok? && current.value != latest.value ==>
      d == Install(current.value, latest.value)
  {
    if current.Err? then ExitCurrentError
    else if latest.Err? then (if latest.error == SliceOutOfRange then Crash else ExitLatestError)
    else if latest.value == current.value then UpToDate
    else Install(current.value, latest.value)
  }

  lemma NotVersionLine(line: string)
    requires line == [] || line[0] != 'c'
    ensures !(LatestPrefix <= line)
  {
  }

  /** No line before the constant is mistaken for it, and none holds a line break. */
  lemma PreambleSkipped()
    ensures forall j | 0 <= j < |BannerPreamble| ::
      '\n' !in BannerPreamble[j] && !(LatestPrefix <= BannerPreamble[j])
  {
    forall j | 0 <= j < |BannerPreamble|
      ensures '\n' !in BannerPreamble[j] && !(LatestPrefix <= BannerPreamble[j])
    {
      NotVersionLine(BannerPreamble[j]);
    }
  }

  lemma ConstantLineHasNoNewline(v: string)
    requires '\n' !in v
    ensures '\n' !in ConstantLine(v)
  {
  }

  /** A body is searched line by line: joining lines without line breaks
      and searching the body is searching the lines. */
  lemma LatestOfJoinedLines(lines: seq<string>)
    requires |lines| >= 1
    requires forall j | 0 <= j < |lines| :: '\n' !in lines[j]
    ensures LatestVersion(Join(lines, "\n")) == LatestFromLines(lines)
  {
    SplitJoin(lines, "\n");
  }

  /** The lines of banner.go give back its `version` constant, whatever
      lines follow line 8. */
  lemma BannerLinesGiveVersion(v: string, tail: seq<string>)
    requires v == [] || (v[0] != '"' && v[|v| - 1] != '"')
    ensures LatestFromLines(BannerSourceHead(v) + tail) == Ok(v)
  {
    var lines := BannerSourceHead(v) + tail;
    PreambleSkipped();
    assert lines[7] == ConstantLine(v);
    forall j | 0 <= j < 7 ensures !(LatestPrefix <= lines[j]) {
      assert lines[j] == BannerPreamble[j];
    }
    ConstantLineGivesVersion(v);
    LatestFromFirstMatch(lines, 7);
  }

  lemma BannerLinesLackNewline(v: string, tail: seq<string>)
    requires '\n' !in v
    requires forall k | 0 <= k < |tail| :: '\n' !in tail[k]
    ensures forall k | 0 <= k < |BannerSourceHead(v) + tail| :: '\n' !in (BannerSourceHead(v) + tail)[k]
  {
    var lines := BannerSourceHead(v) + tail;
    PreambleSkipped();
    ConstantLineHasNoNewline(v);
    forall k | 0 <= k < |lines| ensures '\n' !in lines[k] {
      if k < 7 {
        assert lines[k] == BannerPreamble[k];
      } else if k > 7 {
        assert lines[k] == tail[k - 8];
      }
    }
  }

  /** The fetched banner.go gives back its `version` constant, whatever lines
      follow line 8. */
  lemma BannerSourceGivesVersion(v: string, tail: seq<string>)
    requires v == [] || (v[0] != '"' && v[|v| - 1] != '"')
    requires '\n' !in v
    requires forall k | 0 <= k < |tail| :: '\n' !in tail[k]
    ensures LatestVersion(Join(BannerSourceHead(v) + tail, "\n")) == Ok(v)
  {
    BannerLinesLackNewline(v, tail);
    LatestOfJoinedLines(BannerSourceHead(v) + tail);
    BannerLinesGiveVersion(v, tail);
  }

  /** A version string is neither quoted nor split over lines. */
  lemma VersionStringPlain(d1: string, d2: string, d3: string)
    requires AllDigits(d1) && AllDigits(d2) && AllDigits(d3)
    ensures var v := VersionString(d1, d2, d3);
      v[0] != '"' && v[|v| - 1] != '"' && '\n' !in v
  {
    var v := VersionString(d1, d2, d3);
    JoinThree(d1, d2, d3);
    DigitsLackRunes(d1);
    DigitsLackRunes(d2);
    DigitsLackRunes(d3);
    assert v[|v| - 1] == d3[|d3| - 1];
  }

  /** Installed and published from the same banner.go, the versions agree
      and nothing is installed. */
  lemma SameBannerNoUpdate(art: string, d1: string, d2: string, d3: string, tail: seq<string>)
    requires 'C' !in art
    requires AllDigits(d1) && AllDigits(d2) && AllDigits(d3)
    requires forall k | 0 <= k < |tail| :: '\n' !in tail[k]
    ensures Decide(CurrentVersion(VersionFlagOutput(art, VersionString(d1, d2, d3))),
                   LatestVersion(Join(BannerSourceHead(VersionString(d1, d2, d3)) + tail, "\n")))
            == UpToDate
  {
    var v := VersionString(d1, d2, d3);
    VersionFlagOutputParsesBack(art, d1, d2, d3);
    VersionStringPlain(d1, d2, d3);
    BannerSourceGivesVersion(v, tail);
  }

  lemma ShippedVersionGroups()
    ensures AllDigits("0") && AllDigits("4")
    ensures BannerVersion == VersionString("0", "0", "4")
  {
    JoinThree("0", "0", "4");
  }

  /** The shipped constant has the version shape and reads back from both ends. */
  lemma ShippedVersion(art: string, tail: seq<string>)
    requires 'C' !in art
    requires forall k | 0 <= k < |tail| :: '\n' !in tail[k]
    ensures IsVersionString(BannerVersion)
    ensures CurrentVersion(VersionFlagOutput(art, BannerVersion)) == Ok(BannerVersion)
    ensures LatestVersion(Join(BannerSourceHead(BannerVersion) + tail, "\n")) == Ok(BannerVersion)
  {
    ShippedVersionGroups();
    VersionStringShape("0", "0", "4");
    VersionFlagOutputParsesBack(art, "0", "0", "4");
    VersionStringPlain("0", "0", "4");
    BannerSourceGivesVersion(BannerVersion, tail);
  }
}

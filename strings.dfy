/** The part of Go's `strings` package the tool relies on, on `string` as a
    sequence of runes. Whitespace is Go's `unicode.IsSpace`; case folding is
    ASCII only. */
module Strings {
  import opened Wrappers

  /** `unicode.IsSpace`: the Latin-1 spaces plus the Unicode White_Space runes. */
  predicate IsSpace(c: char) {
    c == ' ' || c == '\t' || c == '\n' || c == '\U{000B}' || c == '\U{000C}' || c == '\r'
    || c == '\U{0085}' || c == '\U{00A0}' || c == '\U{1680}'
    || ('\U{2000}' <= c <= '\U{200A}')
    || c == '\U{2028}' || c == '\U{2029}' || c == '\U{202F}' || c == '\U{205F}' || c == '\U{3000}'
  }

  predicate NoSpaceAround(s: string) {
    s == [] || (!IsSpace(s[0]) && !IsSpace(s[|s| - 1]))
  }

  // ---------------------------------------------------------------------------
  // TrimSpace

  /** The end of the run of whitespace that starts at `i`. */
  function SpaceRunFrom(s: string, i: nat): (n: nat)
    requires i <= |s|
    ensures i <= n <= |s|
    ensures forall k | i <= k < n :: IsSpace(s[k])
    ensures n == |s| || !IsSpace(s[n])
    decreases |s| - i
  {
    if i < |s| && IsSpace(s[i]) then SpaceRunFrom(s, i + 1) else i
  }

  /** The start of the run of whitespace that ends at `j`. */
  function SpaceRunBefore(s: string, j: nat): (m: nat)
    requires j <= |s|
    ensures m <= j
    ensures forall k | m <= k < j :: IsSpace(s[k])
    ensures m == 0 || !IsSpace(s[m - 1])
  {
    if j > 0 && IsSpace(s[j - 1]) then SpaceRunBefore(s, j - 1) else j
  }

  /** Number of whitespace runes `s` starts with. */
  function LeadingSpaces(s: string): (n: nat)
    ensures n <= |s|
    ensures forall i | 0 <= i < n :: IsSpace(s[i])
    ensures n == |s| || !IsSpace(s[n])
  {
    SpaceRunFrom(s, 0)
  }

  /** Number of whitespace runes `s` ends with. */
  function TrailingSpaces(s: string): (n: nat)
    ensures n <= |s|
    ensures forall i | |s| - n <= i < |s| :: IsSpace(s[i])
    ensures n == |s| || !IsSpace(s[|s| - n - 1])
  {
    |s| - SpaceRunBefore(s, |s|)
  }

  /** `strings.TrimLeft(s, spaces)`: `s` without its leading whitespace. */
  function TrimLeft(s: string): string
  {
    s[LeadingSpaces(s)..]
  }

  /** `strings.TrimSpace`: the slice of `s` between its leading and its
      trailing whitespace. */
  function TrimSpace(s: string): string
  {
    var a := LeadingSpaces(s);
    if a == |s| then [] else s[a..|s| - TrailingSpaces(s)]
  }

  /** The trimmed text has no whitespace at either end and is the slice of
      `s` that starts after its leading whitespace. */
  lemma TrimSpaceSpec(s: string)
    ensures NoSpaceAround(TrimSpace(s))
    ensures var r := TrimSpace(s);
      LeadingSpaces(s) + |r| <= |s| && r == s[LeadingSpaces(s)..LeadingSpaces(s) + |r|]
    ensures forall i | LeadingSpaces(s) + |TrimSpace(s)| <= i < |s| :: IsSpace(s[i])
  {
    var a := LeadingSpaces(s);
    if a < |s| {
      var t := TrailingSpaces(s);
      assert !IsSpace(s[a]);
      assert a < |s| - t;
      var r := s[a..|s| - t];
      assert TrimSpace(s) == r;
      assert !IsSpace(r[0]) by {
        assert r[0] == s[a];
      }
      assert !IsSpace(r[|r| - 1]) by {
        assert r[|r| - 1] == s[|s| - t - 1];
      }
    }
  }

  lemma TrimSpaceOfTrimmed(s: string)
    requires NoSpaceAround(s)
    ensures TrimSpace(s) == s
  {
  }

  lemma TrimSpaceIdempotent(s: string)
    ensures TrimSpace(TrimSpace(s)) == TrimSpace(s)
  {
    TrimSpaceSpec(s);
    TrimSpaceOfTrimmed(TrimSpace(s));
  }

  // ---------------------------------------------------------------------------
  // ToLower (ASCII)

  function LowerChar(c: char): char
  {
    if 'A' <= c <= 'Z' then (c as int + 32) as char else c
  }

  /** `strings.ToLower`, restricted to the ASCII letters. */
  function ToLower(s: string): (r: string)
    ensures |r| == |s|
  {
    if s == [] then [] else [LowerChar(s[0])] + ToLower(s[1..])
  }

  /** Each rune is lowered on its own. */
  lemma {:induction false} ToLowerAt(s: string)
    ensures forall i | 0 <= i < |s| :: ToLower(s)[i] == LowerChar(s[i])
  {
    if s != [] {
      ToLowerAt(s[1..]);
    }
  }

  predicate IsLower(s: string) {
    forall i | 0 <= i < |s| :: !('A' <= s[i] <= 'Z')
  }

  function LowerAll(parts: seq<string>): (r: seq<string>)
    ensures |r| == |parts|
  {
    seq(|parts|, k requires 0 <= k < |parts| => ToLower(parts[k]))
  }

  // ---------------------------------------------------------------------------
  // Index, Contains

  /** `sub` occurs in `s` starting at rune `i`. */
  predicate IsAt(s: string, sub: string, i: int) {
    0 <= i && i + |sub| <= |s| && s[i..i + |sub|] == sub
  }

  /** The first occurrence of `sub` in `s` at or after `k`. */
  function IndexFrom(s: string, sub: string, k: nat): (r: Option<nat>)
    ensures r.Some? ==> k <= r.value && IsAt(s, sub, r.value)
    ensures r.Some? ==> forall j | k <= j < r.value :: !IsAt(s, sub, j)
    ensures r.None? ==> forall j | k <= j :: !IsAt(s, sub, j)
    decreases |s| - k
  {
    if k + |sub| > |s| then None
    else if s[k..k + |sub|] == sub then Some(k)
    else IndexFrom(s, sub, k + 1)
  }

  /** `strings.Index`, with `None` for Go's -1. */
  function IndexOf(s: string, sub: string): Option<nat>
  {
    IndexFrom(s, sub, 0)
  }

  /** `strings.Contains`. */
  predicate Contains(s: string, sub: string) {
    IndexOf(s, sub).Some?
  }

  /** `sub` is contained exactly when it occurs at some position. */
  lemma ContainsIffOccurs(s: string, sub: string)
    ensures Contains(s, sub) <==> exists i :: IsAt(s, sub, i)
  {
  }

  /** Containment of a one-rune string is membership of that rune. */
  lemma ContainsChar(s: string, c: char)
    ensures Contains(s, [c]) <==> c in s
  {
    if c in s {
      var i :| 0 <= i < |s| && s[i] == c;
      assert IsAt(s, [c], i);
    }
    if Contains(s, [c]) {
      var j := IndexOf(s, [c]).value;
      assert s[j..j + 1][0] == s[j];
    }
  }

  /** A slice of a text without `sub` has no `sub` either. */
  lemma SliceKeepsAbsent(s: string, a: nat, b: nat, sub: string)
    requires a <= b <= |s|
    requires !Contains(s, sub)
    ensures !Contains(s[a..b], sub)
  {
    if Contains(s[a..b], sub) {
      var t := s[a..b];
      var j := IndexOf(t, sub).value;
      assert IsAt(t, sub, j);
      SliceOfSlice(s, a, b, j, j + |sub|);
      assert IsAt(s, sub, a + j);
    }
  }

  lemma SliceOfSlice(s: string, a: nat, b: nat, i: nat, j: nat)
    requires a <= b <= |s| && i <= j <= b - a
    ensures s[a..b][i..j] == s[a + i..a + j]
  {
    forall k | 0 <= k < j - i
      ensures s[a..b][i..j][k] == s[a + i..a + j][k]
    {
      assert s[a..b][i + k] == s[a + i + k];
    }
  }

  /** The text before the first occurrence of a non-empty `sub` holds no `sub`. */
  lemma PrefixBeforeFirstLacksIt(s: string, i: nat, sub: string)
    requires |sub| > 0 && IndexOf(s, sub) == Some(i)
    ensures !Contains(s[..i], sub)
  {
    if Contains(s[..i], sub) {
      var j := IndexOf(s[..i], sub).value;
      assert s[..i][j..j + |sub|] == s[j..j + |sub|];
      assert IsAt(s, sub, j);
    }
  }

  // ---------------------------------------------------------------------------
  // Split, Join, Replace

  /** `strings.Split` for a non-empty separator: the pieces between the
      occurrences of `sep`, none of which contains `sep`. */
  function Split(s: string, sep: string): (r: seq<string>)
    requires |sep| > 0
    ensures |r| >= 1
    decreases |s|
  {
    match IndexOf(s, sep)
    case None => [s]
    case Some(i) => [s[..i]] + Split(s[i + |sep|..], sep)
  }

  /** `strings.Join`. */
  function Join(parts: seq<string>, sep: string): string
  {
    if |parts| == 0 then ""
    else if |parts| == 1 then parts[0]
    else parts[0] + sep + Join(parts[1..], sep)
  }

  /** No piece of a split holds the separator. */
  lemma {:induction false} SplitPiecesLackSeparator(s: string, sep: string)
    requires |sep| > 0
    ensures forall k | 0 <= k < |Split(s, sep)| :: !Contains(Split(s, sep)[k], sep)
    decreases |s|
  {
    match IndexOf(s, sep)
    case None =>
    case Some(i) =>
      var rest := s[i + |sep|..];
      SplitPiecesLackSeparator(rest, sep);
      if Contains(s[..i], sep) {
        var j := IndexOf(s[..i], sep).value;
        assert s[..i][j..j + |sep|] == s[j..j + |sep|];
        assert IsAt(s, sep, j);
        assert false;
      }
  }

  /** Joining the pieces back with the separator restores the text. */
  lemma {:induction false} JoinSplit(s: string, sep: string)
    requires |sep| > 0
    ensures Join(Split(s, sep), sep) == s
    decreases |s|
  {
    match IndexOf(s, sep)
    case None =>
    case Some(i) =>
      var rest := s[i + |sep|..];
      JoinSplit(rest, sep);
      JoinCons(s[..i], Split(rest, sep), sep);
      SliceAround(s, i, |sep|);
  }

  lemma SliceAround(s: string, i: nat, n: nat)
    requires i + n <= |s|
    ensures s == s[..i] + s[i..i + n] + s[i + n..]
  {
  }

  lemma JoinCons(head: string, tail: seq<string>, sep: string)
    requires |tail| >= 1
    ensures Join([head] + tail, sep) == head + sep + Join(tail, sep)
  {
    assert ([head] + tail)[1..] == tail;
  }

  /** When the first rune of `sep` does not occur in `p`, the first `sep` in
      `p + sep + q` is the one right after `p`. */
  lemma IndexOfAfterPrefix(p: string, sep: string, q: string)
    requires |sep| > 0 && sep[0] !in p
    ensures IndexOf(p + sep + q, sep) == Some(|p|)
  {
    var s := p + sep + q;
    assert s[|p|..|p| + |sep|] == sep;
    assert IsAt(s, sep, |p|);
    forall j | 0 <= j < |p|
      ensures !IsAt(s, sep, j)
    {
      assert s[j] == p[j];
    }
  }

  lemma IndexOfAbsentRune(s: string, sep: string)
    requires |sep| > 0 && sep[0] !in s
    ensures IndexOf(s, sep) == None
  {
  }

  /** When no piece holds the first rune of the separator, splitting the join
      gives the pieces back. */
  lemma {:induction false} SplitJoin(parts: seq<string>, sep: string)
    requires |parts| >= 1 && |sep| > 0
    requires forall k | 0 <= k < |parts| :: sep[0] !in parts[k]
    ensures Split(Join(parts, sep), sep) == parts
  {
    if |parts| == 1 {
      IndexOfAbsentRune(parts[0], sep);
    } else {
      var p, tail := parts[0], Join(parts[1..], sep);
      IndexOfAfterPrefix(p, sep, tail);
      var s := p + sep + tail;
      assert s[..|p|] == p;
      assert s[|p| + |sep|..] == tail;
      SplitJoin(parts[1..], sep);
    }
  }

  /** `strings.Replace(s, pat, rep, -1)` for a non-empty pattern: every
      occurrence, scanning left to right, is replaced. */
  function ReplaceAll(s: string, pat: string, rep: string): string
    requires |pat| > 0
    decreases |s|
  {
    match IndexOf(s, pat)
    case None => s
    case Some(i) => s[..i] + rep + ReplaceAll(s[i + |pat|..], pat, rep)
  }

  /** Replacing every occurrence is joining the pieces between them with the
      replacement. */
  lemma {:induction false} ReplaceAllIsJoinOfSplit(s: string, pat: string, rep: string)
    requires |pat| > 0
    ensures ReplaceAll(s, pat, rep) == Join(Split(s, pat), rep)
    decreases |s|
  {
    match IndexOf(s, pat)
    case None =>
    case Some(i) =>
      var rest := s[i + |pat|..];
      ReplaceAllIsJoinOfSplit(rest, pat, rep);
      var parts := Split(s, pat);
      assert parts[1..] == Split(rest, pat);
  }

  // ---------------------------------------------------------------------------
  // TrimSuffix, Trim with a one-rune cutset

  /** `strings.TrimSuffix`: removes one copy of `suffix` when `s` ends in it. */
  function TrimSuffix(s: string, suffix: string): (r: string)
    ensures r + suffix == s || r == s
  {
    if |suffix| <= |s| && s[|s| - |suffix|..] == suffix then s[..|s| - |suffix|] else s
  }

  /** A suffix that is present is removed, once, and leaves the rest of the
      text; a suffix that is absent leaves the text unchanged. */
  lemma TrimSuffixCases(s: string, suffix: string)
    ensures |suffix| <= |s| && s[|s| - |suffix|..] == suffix ==>
      TrimSuffix(s, suffix) + suffix == s && |TrimSuffix(s, suffix)| == |s| - |suffix|
    ensures !(|suffix| <= |s| && s[|s| - |suffix|..] == suffix) ==> TrimSuffix(s, suffix) == s
  {
  }

  /** `strings.Trim(s, cutset)` with a cutset of the one rune `c`: all copies
      of `c` at either end are removed, and nothing else. */
  function TrimRune(s: string, c: char): (r: string)
    ensures r == [] || (r[0] != c && r[|r| - 1] != c)
    decreases |s|
  {
    if s != [] && s[0] == c then TrimRune(s[1..], c)
    else if s != [] && s[|s| - 1] == c then TrimRune(s[..|s| - 1], c)
    else s
  }

  /** `r` is `s[a..b]`, and everything cut off around it is a copy of `c`. */
  predicate CutAround(s: string, c: char, r: string, a: nat, b: nat) {
    && a <= b <= |s| && r == s[a..b]
    && (forall i | 0 <= i < a :: s[i] == c)
    && (forall i | b <= i < |s| :: s[i] == c)
  }

  /** The result is a slice of `s`, and only copies of `c` are cut off
      around it: with the ensures of `TrimRune` itself, exactly the runs of
      `c` at both ends are removed. */
  lemma {:induction false} TrimRuneSlice(s: string, c: char)
    ensures exists a: nat, b: nat :: CutAround(s, c, TrimRune(s, c), a, b)
    decreases |s|
  {
    var r := TrimRune(s, c);
    if s != [] && s[0] == c {
      TrimRuneSlice(s[1..], c);
      var a: nat, b: nat :| CutAround(s[1..], c, r, a, b);
      CutAroundFirst(s, c, r, a, b);
    } else if s != [] && s[|s| - 1] == c {
      TrimRuneSlice(s[..|s| - 1], c);
      var a: nat, b: nat :| CutAround(s[..|s| - 1], c, r, a, b);
      CutAroundLast(s, c, r, a, b);
    } else {
      assert CutAround(s, c, r, 0, |s|);
    }
  }

  lemma CutAroundFirst(s: string, c: char, r: string, a: nat, b: nat)
    requires s != [] && s[0] == c && CutAround(s[1..], c, r, a, b)
    ensures CutAround(s, c, r, a + 1, b + 1)
  {
    assert r == s[a + 1..b + 1];
    forall i | 0 < i < |s| ensures s[i] == s[1..][i - 1] {}
  }

  lemma CutAroundLast(s: string, c: char, r: string, a: nat, b: nat)
    requires s != [] && s[|s| - 1] == c && CutAround(s[..|s| - 1], c, r, a, b)
    ensures CutAround(s, c, r, a, b)
  {
    assert r == s[a..b];
    forall i | 0 <= i < |s| - 1 ensures s[i] == s[..|s| - 1][i] {}
  }

  // ---------------------------------------------------------------------------
  // Fields

  /** Length of the run of non-whitespace runes that `s` starts with. */
  function WordLen(s: string): (n: nat)
    ensures n <= |s|
    ensures forall i | 0 <= i < n :: !IsSpace(s[i])
    ensures n == |s| || IsSpace(s[n])
  {
    if s == [] || IsSpace(s[0]) then 0 else 1 + WordLen(s[1..])
  }

  predicate NoSpace(s: string) {
    forall i | 0 <= i < |s| :: !IsSpace(s[i])
  }

  /** `strings.Fields`: the maximal runs of non-whitespace runes, in order. */
  function Fields(s: string): (r: seq<string>)
    ensures forall k | 0 <= k < |r| :: r[k] != [] && NoSpace(r[k])
    decreases |s|
  {
    var t := TrimLeft(s);
    if t == [] then []
    else
      var n := WordLen(t);
      [t[..n]] + Fields(t[n..])
  }

  /** The empty line and a line of whitespace have no fields. */
  lemma FieldsOfEmpty()
    ensures Fields("") == []
  {
  }

  /** Whitespace in front of the fields does not change them. */
  lemma FieldsAfterSpace(c: char, rest: string)
    requires IsSpace(c)
    ensures Fields([c] + rest) == Fields(rest)
  {
    var s := [c] + rest;
    assert s[1..] == rest;
    assert LeadingSpaces(s) == 1 + LeadingSpaces(rest);
    assert TrimLeft(s) == TrimLeft(rest);
  }

  /** A word followed by whitespace (or by nothing) is the first field. */
  lemma FieldsCons(w: string, rest: string)
    requires w != [] && NoSpace(w)
    requires rest == [] || IsSpace(rest[0])
    ensures Fields(w + rest) == [w] + Fields(rest)
  {
    var s := w + rest;
    assert !IsSpace(s[0]);
    assert TrimLeft(s) == s;
    assert forall i | 0 <= i < |w| :: !IsSpace(s[i]) by {
      forall i | 0 <= i < |w| ensures !IsSpace(s[i]) {
        assert s[i] == w[i];
      }
    }
    assert |w| == |s| || IsSpace(s[|w|]);
    assert WordLen(s) == |w|;
    assert s[..|w|] == w && s[|w|..] == rest;
  }

  /** `s` with its whitespace runes removed. */
  function WithoutSpaces(s: string): string
  {
    if s == [] then [] else (if IsSpace(s[0]) then [] else [s[0]]) + WithoutSpaces(s[1..])
  }

  /** The parts, one after the other. */
  function Concat(parts: seq<string>): string
  {
    if parts == [] then "" else parts[0] + Concat(parts[1..])
  }

  lemma {:induction false} WithoutSpacesAppend(a: string, b: string)
    ensures WithoutSpaces(a + b) == WithoutSpaces(a) + WithoutSpaces(b)
  {
    if a != [] {
      assert (a + b)[1..] == a[1..] + b;
      WithoutSpacesAppend(a[1..], b);
    } else {
      assert a + b == b;
    }
  }

  lemma {:induction false} WithoutSpacesOfSpaces(s: string)
    requires forall i | 0 <= i < |s| :: IsSpace(s[i])
    ensures WithoutSpaces(s) == []
  {
    if s != [] {
      WithoutSpacesOfSpaces(s[1..]);
    }
  }

  lemma {:induction false} WithoutSpacesOfWord(s: string)
    requires NoSpace(s)
    ensures WithoutSpaces(s) == s
  {
    if s != [] {
      WithoutSpacesOfWord(s[1..]);
    }
  }

  /** The fields, put back together, are the text without its whitespace:
      nothing but whitespace is lost and nothing is reordered. */
  lemma {:induction false} FieldsConcat(s: string)
    ensures Concat(Fields(s)) == WithoutSpaces(s)
    decreases |s|
  {
    var t := TrimLeft(s);
    WithoutLeadingSpaces(s);
    if t != [] {
      var n := WordLen(t);
      FieldsConcat(t[n..]);
      WithoutSpacesOfFirstWord(t);
      ConcatCons(t[..n], Fields(t[n..]));
    }
  }

  lemma WithoutLeadingSpaces(s: string)
    ensures WithoutSpaces(s) == WithoutSpaces(TrimLeft(s))
  {
    var a := LeadingSpaces(s);
    assert s == s[..a] + TrimLeft(s);
    WithoutSpacesAppend(s[..a], TrimLeft(s));
    WithoutSpacesOfSpaces(s[..a]);
  }

  lemma WithoutSpacesOfFirstWord(t: string)
    ensures WithoutSpaces(t) == t[..WordLen(t)] + WithoutSpaces(t[WordLen(t)..])
  {
    var n := WordLen(t);
    assert t == t[..n] + t[n..];
    WithoutSpacesAppend(t[..n], t[n..]);
    WithoutSpacesOfWord(t[..n]);
  }

  lemma ConcatCons(w: string, rest: seq<string>)
    ensures Concat([w] + rest) == w + Concat(rest)
  {
    assert ([w] + rest)[1..] == rest;
  }
}

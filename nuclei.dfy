/** The deterministic part of the `nuclei` subcommand (cmd/nuclei.go): the
    exclusion list, the per-record technology filter, the command synthesised
    from the `--cmd` template, the plan made for each record, and the
    classifier that decides which output lines are appended to the
    `--append-output` file. Records are taken one at a time; the goroutines,
    the semaphore and the subprocess are not part of this model. */
module Nuclei {
  import opened Wrappers
  import opened Strings

  /** One decoded input record (`TechData`). `tech` is `None` when the JSON
      field is null or missing, which Go decodes as a nil slice. */
  datatype TechData = TechData(host: string, tech: Option<seq<string>>)

  // ---------------------------------------------------------------------------
  // Exclusion list

  /** One `--exclude-tech` entry as the tool compares it: lowercased, then trimmed. */
  function NormalizeEntry(e: string): string
  {
    TrimSpace(ToLower(e))
  }

  function NormalizeAll(entries: seq<string>): (r: seq<string>)
    ensures |r| == |entries|
  {
    seq(|entries|, i requires 0 <= i < |entries| => NormalizeEntry(entries[i]))
  }

  /** The exclusion list built from the `--exclude-tech` flag. */
  function ExclusionList(flag: string): seq<string>
  {
    NormalizeAll(Split(flag, ","))
  }

  /** The loop that normalises the split flag in place. */
  method NormalizeInPlace(list: array<string>)
    modifies list
    ensures list[..] == NormalizeAll(old(list[..]))
  {
    ghost var orig := list[..];
    for i := 0 to list.Length
      invariant forall k | 0 <= k < i :: list[k] == NormalizeEntry(orig[k])
      invariant forall k | i <= k < list.Length :: list[k] == orig[k]
    {
      list[i] := NormalizeEntry(list[i]);
    }
    assert list[..] == NormalizeAll(orig);
  }

  /** Splits the flag on `,` and normalises every entry. */
  method ParseExclusions(flag: string) returns (excl: seq<string>)
    ensures excl == ExclusionList(flag)
  {
    var parts := Split(flag, ",");
    var list := new string[|parts|](i requires 0 <= i < |parts| => parts[i]);
    assert list[..] == parts;
    NormalizeInPlace(list);
    excl := list[..];
  }

  lemma LowerOfLower(s: string)
    requires IsLower(s)
    ensures ToLower(s) == s
  {
    ToLowerAt(s);
  }

  lemma TrimSpaceKeepsLower(s: string)
    requires IsLower(s)
    ensures IsLower(TrimSpace(s))
  {
    var a := LeadingSpaces(s);
    var r := TrimSpace(s);
    TrimSpaceSpec(s);
    forall i | 0 <= i < |r|
      ensures !('A' <= r[i] <= 'Z')
    {
      assert r[i] == s[a + i];
    }
  }

  /** A normalised entry is lowercase and trimmed, so normalising it again
      changes nothing. */
  lemma NormalizeEntryNormal(e: string)
    ensures IsLower(NormalizeEntry(e)) && NoSpaceAround(NormalizeEntry(e))
    ensures NormalizeEntry(NormalizeEntry(e)) == NormalizeEntry(e)
  {
    var lowered := ToLower(e);
    ToLowerAt(e);
    TrimSpaceKeepsLower(lowered);
    TrimSpaceSpec(lowered);
    LowerOfLower(NormalizeEntry(e));
    TrimSpaceIdempotent(lowered);
  }

  /** Every exclusion entry is already normalised; there is always at least
      one entry. */
  lemma ExclusionEntriesNormalized(flag: string)
    ensures |ExclusionList(flag)| >= 1
    ensures forall k | 0 <= k < |ExclusionList(flag)| ::
      IsLower(ExclusionList(flag)[k]) && NoSpaceAround(ExclusionList(flag)[k])
      && NormalizeEntry(ExclusionList(flag)[k]) == ExclusionList(flag)[k]
  {
    var parts := Split(flag, ",");
    forall k | 0 <= k < |parts|
      ensures IsLower(ExclusionList(flag)[k]) && NoSpaceAround(ExclusionList(flag)[k])
      && NormalizeEntry(ExclusionList(flag)[k]) == ExclusionList(flag)[k]
    {
      NormalizeEntryNormal(parts[k]);
    }
  }

  /** An empty flag gives the single entry `""`. */
  lemma EmptyFlagExcludesEmpty()
    ensures ExclusionList("") == [""]
  {
    assert IndexOf("", ",") == None;
    assert Split("", ",") == [""];
  }

  // ---------------------------------------------------------------------------
  // Technology filter

  /** `strings.SplitN(s, sep, 2)`: the whole text, or the text before and
      after the first `sep`. */
  function SplitOnce(s: string, sep: string): (r: seq<string>)
    ensures 1 <= |r| <= 2
  {
    match IndexOf(s, sep)
    case None => [s]
    case Some(i) => [s[..i], s[i + |sep|..]]
  }

  /** The name a raw tag stands for: the text before its first `:`, trimmed. */
  function TagName(raw: string): string
  {
    TrimSpace(SplitOnce(raw, ":")[0])
  }

  /** A tag is kept when it holds no space character and its lowercase form is
      not one of the exclusion entries. */
  predicate Keeps(tag: string, excl: seq<string>)
  {
    !Contains(tag, " ") && ToLower(tag) !in excl
  }

  /** The raw tags' names, in order. */
  function TagNames(raw: seq<string>): (r: seq<string>)
    ensures |r| == |raw|
  {
    seq(|raw|, i requires 0 <= i < |raw| => TagName(raw[i]))
  }

  /** The names that pass the filter's test, in order. */
  function Passing(names: seq<string>, excl: seq<string>): seq<string>
  {
    if names == [] then []
    else
      var name := names[|names| - 1];
      Passing(names[..|names| - 1], excl) + KeptIf(name, excl)
  }

  /** The name alone when it passes, nothing otherwise. */
  function KeptIf(name: string, excl: seq<string>): seq<string>
  {
    if Keeps(name, excl) then [name] else []
  }

  /** The kept tags of a record, in source order, duplicates included. */
  function FilterTags(raw: seq<string>, excl: seq<string>): seq<string>
  {
    Passing(TagNames(raw), excl)
  }

  lemma TagNamesSnoc(raw: seq<string>, i: nat)
    requires i < |raw|
    ensures TagNames(raw[..i + 1]) == TagNames(raw[..i]) + [TagName(raw[i])]
  {
  }

  lemma PassingSnoc(names: seq<string>, name: string, excl: seq<string>)
    ensures Passing(names + [name], excl) == Passing(names, excl) + KeptIf(name, excl)
  {
    assert (names + [name])[..|names|] == names;
  }

  /** `contains`: linear scan of the exclusion list for an exact match. */
  method ContainsEntry(list: seq<string>, item: string) returns (found: bool)
    ensures found <==> item in list
  {
    for i := 0 to |list|
      invariant item !in list[..i]
    {
      if list[i] == item {
        return true;
      }
    }
    return false;
  }

  /** The filter loop over a record's raw tags. */
  method FilterTechs(raw: seq<string>, excl: seq<string>) returns (techs: seq<string>)
    ensures techs == FilterTags(raw, excl)
  {
    techs := [];
    for i := 0 to |raw|
      invariant techs == FilterTags(raw[..i], excl)
    {
      TagNamesSnoc(raw, i);
      PassingSnoc(TagNames(raw[..i]), TagName(raw[i]), excl);
      var parts := SplitOnce(raw[i], ":");
      if |parts| > 0 {
        var tech := TrimSpace(parts[0]);
        if !Contains(tech, " ") {
          var excluded := ContainsEntry(excl, ToLower(tech));
          if !excluded {
            techs := techs + [tech];
          }
        }
      }
    }
    assert raw[..|raw|] == raw;
  }

  /** A tag name has no `:` and no surrounding whitespace, and is its own name. */
  lemma TagNameNormal(raw: string)
    ensures ':' !in TagName(raw)
    ensures NoSpaceAround(TagName(raw))
    ensures TagName(TagName(raw)) == TagName(raw)
  {
    var before := SplitOnce(raw, ":")[0];
    assert ':' !in before by {
      match IndexOf(raw, ":")
      case None => ContainsChar(raw, ':');
      case Some(i) =>
        ContainsChar(raw[..i], ':');
        PrefixBeforeFirstLacksIt(raw, i, ":");
    }
    var name := TagName(raw);
    var a := LeadingSpaces(before);
    assert name == before[a..a + |name|];
    assert ':' !in name by {
      forall j | 0 <= j < |name| ensures name[j] != ':' {
        assert name[j] == before[a + j];
      }
    }
    IndexOfAbsentRune(name, ":");
    TrimSpaceOfTrimmed(name);
  }

  /** `a` is `b` with some elements left out, the rest in their order. */
  predicate IsSubsequence(a: seq<string>, b: seq<string>)
    decreases |b|
  {
    if a == [] then true
    else if b == [] then false
    else if a[|a| - 1] == b[|b| - 1] then IsSubsequence(a[..|a| - 1], b[..|b| - 1])
    else IsSubsequence(a, b[..|b| - 1])
  }

  lemma {:induction false} SubsequenceExtend(a: seq<string>, b: seq<string>, x: string)
    requires IsSubsequence(a, b)
    ensures IsSubsequence(a, b + [x])
    decreases |b|, 1
  {
    if a != [] {
      assert (b + [x])[..|b|] == b;
      if a[|a| - 1] == x {
        SubsequenceDrop(a, b);
      }
    }
  }

  lemma {:induction false} SubsequenceDrop(a: seq<string>, b: seq<string>)
    requires a != [] && IsSubsequence(a, b)
    ensures IsSubsequence(a[..|a| - 1], b)
    decreases |b|, 0
  {
    var init := a[..|a| - 1];
    if init == [] {
    } else if a[|a| - 1] == b[|b| - 1] {
      SubsequenceExtend(init, b[..|b| - 1], b[|b| - 1]);
      assert b[..|b| - 1] + [b[|b| - 1]] == b;
    } else {
      SubsequenceDrop(a, b[..|b| - 1]);
      SubsequenceExtend(init, b[..|b| - 1], b[|b| - 1]);
      assert b[..|b| - 1] + [b[|b| - 1]] == b;
    }
  }

  /** The names that pass are the names with some left out, in order
      (duplicates stay). */
  lemma {:induction false} PassingSubsequence(names: seq<string>, excl: seq<string>)
    ensures IsSubsequence(Passing(names, excl), names)
  {
    if names != [] {
      var init, name := names[..|names| - 1], names[|names| - 1];
      var kept := Passing(init, excl);
      PassingSubsequence(init, excl);
      assert names == init + [name];
      assert (init + [name])[..|init|] == init;
      if Keeps(name, excl) {
        assert (kept + [name])[..|kept|] == kept;
      } else {
        assert Passing(names, excl) == kept;
        SubsequenceExtend(kept, init, name);
      }
    }
  }

  /** Every name that passes is kept as many times as it occurs, and no
      other name is kept. */
  lemma {:induction false} PassingCounts(names: seq<string>, excl: seq<string>)
    ensures forall x :: multiset(Passing(names, excl))[x] == (if Keeps(x, excl) then multiset(names)[x] else 0)
  {
    if names != [] {
      var init := names[..|names| - 1];
      PassingCounts(init, excl);
      assert names == init + [names[|names| - 1]];
    }
  }

  lemma {:induction false} SubsequenceMembers(a: seq<string>, b: seq<string>)
    requires IsSubsequence(a, b)
    ensures forall x | x in a :: x in b
    decreases |b|
  {
    if a != [] && b != [] {
      var b' := b[..|b| - 1];
      if a[|a| - 1] == b[|b| - 1] {
        SubsequenceMembers(a[..|a| - 1], b');
        assert a == a[..|a| - 1] + [a[|a| - 1]];
      } else {
        SubsequenceMembers(a, b');
      }
    }
  }

  lemma {:induction false} PassingPass(names: seq<string>, excl: seq<string>)
    ensures forall k | 0 <= k < |Passing(names, excl)| :: Keeps(Passing(names, excl)[k], excl)
  {
    if names != [] {
      PassingPass(names[..|names| - 1], excl);
    }
  }

  /** The kept tags are the raw tags' names with some left out, in source
      order; each passes the filter's test (no space character, lowercase form
      not excluded) and is in normal form: no `:`, no surrounding whitespace. */
  lemma FilterTagsSound(raw: seq<string>, excl: seq<string>)
    ensures IsSubsequence(FilterTags(raw, excl), TagNames(raw))
    ensures forall k | 0 <= k < |FilterTags(raw, excl)| ::
      var t := FilterTags(raw, excl)[k];
      t in TagNames(raw) && Keeps(t, excl) && ' ' !in t && ':' !in t && NoSpaceAround(t)
  {
    var kept := FilterTags(raw, excl);
    PassingSubsequence(TagNames(raw), excl);
    SubsequenceMembers(kept, TagNames(raw));
    PassingPass(TagNames(raw), excl);
    forall k | 0 <= k < |kept|
      ensures ' ' !in kept[k] && ':' !in kept[k] && NoSpaceAround(kept[k])
    {
      ContainsChar(kept[k], ' ');
      assert kept[k] in TagNames(raw);
      var j :| 0 <= j < |raw| && TagNames(raw)[j] == kept[k];
      TagNameNormal(raw[j]);
    }
  }

  /** The kept tags hold each passing name exactly as often as the raw tags
      name it, and nothing else. */
  lemma FilterTagsCounts(raw: seq<string>, excl: seq<string>)
    ensures forall x ::
      multiset(FilterTags(raw, excl))[x] == (if Keeps(x, excl) then multiset(TagNames(raw))[x] else 0)
  {
    PassingCounts(TagNames(raw), excl);
  }

  /** A record yields no tag exactly when none of its raw tags passes. */
  lemma {:induction false} PassingEmptyIff(names: seq<string>, excl: seq<string>)
    ensures Passing(names, excl) == [] <==> forall j | 0 <= j < |names| :: !Keeps(names[j], excl)
  {
    if names != [] {
      var init := names[..|names| - 1];
      PassingEmptyIff(init, excl);
      if Passing(names, excl) == [] {
        forall j | 0 <= j < |names|
          ensures !Keeps(names[j], excl)
        {
          if j < |init| {
            assert names[j] == init[j];
          }
        }
      } else if Passing(init, excl) != [] {
        var j :| 0 <= j < |init| && Keeps(init[j], excl);
        assert names[j] == init[j];
      }
    }
  }

  lemma FilterTagsEmptyIff(raw: seq<string>, excl: seq<string>)
    ensures FilterTags(raw, excl) == [] <==> forall j | 0 <= j < |raw| :: !Keeps(TagNames(raw)[j], excl)
  {
    PassingEmptyIff(TagNames(raw), excl);
  }

  /** When every name passes, all of them are kept. */
  lemma {:induction false} PassingAll(names: seq<string>, excl: seq<string>)
    requires forall k | 0 <= k < |names| :: Keeps(names[k], excl)
    ensures Passing(names, excl) == names
  {
    if names != [] {
      PassingAll(names[..|names| - 1], excl);
      assert names == names[..|names| - 1] + [names[|names| - 1]];
    }
  }

  /** Filtering a filtered list with the same exclusions changes nothing. */
  lemma FilterTagsIdempotent(raw: seq<string>, excl: seq<string>)
    ensures FilterTags(FilterTags(raw, excl), excl) == FilterTags(raw, excl)
  {
    var kept := FilterTags(raw, excl);
    FilterTagsSound(raw, excl);
    forall k | 0 <= k < |kept|
      ensures TagNames(kept)[k] == kept[k]
    {
      var j :| 0 <= j < |raw| && TagNames(raw)[j] == kept[k];
      TagNameNormal(raw[j]);
    }
    assert TagNames(kept) == kept;
    PassingAll(kept, excl);
  }

  /** Only the space character drops a tag: a tab or any other whitespace
      inside a name is not looked at. */
  lemma KeepsIff(name: string, excl: seq<string>)
    ensures Keeps(name, excl) <==> ' ' !in name && ToLower(name) !in excl
  {
    ContainsChar(name, ' ');
  }

  lemma PlainTagName(raw: string)
    requires ':' !in raw && NoSpaceAround(raw)
    ensures TagName(raw) == raw
  {
    IndexOfAbsentRune(raw, ":");
    TrimSpaceOfTrimmed(raw);
  }

  /** The version after the first `:` is dropped: `React:18` names `React`. */
  lemma VersionedTagName(name: string, version: string)
    requires ':' !in name && NoSpaceAround(name)
    ensures TagName(name + ":" + version) == name
  {
    var raw := name + ":" + version;
    IndexOfAfterPrefix(name, ":", version);
    assert raw[..|name|] == name;
    TrimSpaceOfTrimmed(name);
  }

  lemma FilterPair(r1: string, r2: string, excl: seq<string>)
    ensures FilterTags([r1, r2], excl) == KeptIf(TagName(r1), excl) + KeptIf(TagName(r2), excl)
  {
    var n1, n2 := TagName(r1), TagName(r2);
    assert TagNames([r1, r2]) == [n1] + [n2];
    PassingSnoc([], n1, excl);
    PassingSnoc([n1], n2, excl);
    assert [] + [n1] == [n1];
  }

  /** A flag with one entry that is already lowercase and trimmed, and holds
      no `,`, is that entry alone. */
  lemma SingleEntryFlag(w: string)
    requires ',' !in w && IsLower(w) && NoSpaceAround(w)
    ensures ExclusionList(w) == [w]
  {
    IndexOfAbsentRune(w, ",");
    assert Split(w, ",") == [w];
    LowerOfLower(w);
    TrimSpaceOfTrimmed(w);
  }

  lemma FilterSingle(r: string, excl: seq<string>)
    ensures FilterTags([r], excl) == KeptIf(TagName(r), excl)
  {
    assert TagNames([r]) == [] + [TagName(r)];
    PassingSnoc([], TagName(r), excl);
  }

  /** Lowering changes no `,` and no whitespace, and leaves nothing uppercase. */
  lemma LowerKeepsShape(t: string)
    requires ',' !in t && NoSpaceAround(t)
    ensures ',' !in ToLower(t) && IsLower(ToLower(t)) && NoSpaceAround(ToLower(t))
  {
    ToLowerAt(t);
  }

  /** Exclusion ignores case: `--exclude-tech` given the lowercase name of a
      plain tag (`wordpress` for `WordPress`) drops that tag. */
  lemma ExclusionIgnoresCase(tag: string)
    requires ':' !in tag && ',' !in tag && NoSpaceAround(tag)
    ensures FilterTags([tag], ExclusionList(ToLower(tag))) == []
  {
    var w := ToLower(tag);
    LowerKeepsShape(tag);
    SingleEntryFlag(w);
    PlainTagName(tag);
    FilterSingle(tag, [w]);
    assert !Keeps(tag, [w]);
  }

  /** With an empty `--exclude-tech`, a tag whose name is empty is dropped;
      with a flag that has no empty entry it is kept. */
  lemma EmptyNameKeptIff(excl: seq<string>)
    ensures Keeps("", excl) <==> "" !in excl
    ensures !Keeps("", ExclusionList(""))
  {
    ContainsChar("", ' ');
    EmptyFlagExcludesEmpty();
  }

  // ---------------------------------------------------------------------------
  // Command synthesis

  /** How `{tech}` is expanded, chosen from the template text alone. */
  datatype Mode = ConditionMode | TagsMode | NoMode

  /** `-tc` is checked first, so it wins when both flags appear. */
  function ModeOf(template: string): (m: Mode)
    ensures m == ConditionMode <==> Contains(template, "-tc")
    ensures m == TagsMode <==> !Contains(template, "-tc") && Contains(template, "-tags")
    ensures m == NoMode <==> !Contains(template, "-tc") && !Contains(template, "-tags")
  {
    if Contains(template, "-tc") then ConditionMode
    else if Contains(template, "-tags") then TagsMode
    else NoMode
  }

  const Placeholder := "{tech}"
  const ConditionSeparator := " || "

  /** The nuclei template condition that selects one technology. */
  function Condition(tag: string): string
  {
    "contains(to_lower(name),'" + ToLower(tag) + "')"
  }

  function Conditions(techs: seq<string>): (r: seq<string>)
    ensures |r| == |techs|
  {
    seq(|techs|, i requires 0 <= i < |techs| => Condition(techs[i]))
  }

  /** The loop that builds one condition per kept tag. */
  method BuildConditions(techs: seq<string>) returns (conditions: seq<string>)
    ensures conditions == Conditions(techs)
  {
    conditions := [];
    for i := 0 to |techs|
      invariant conditions == Conditions(techs[..i])
    {
      conditions := conditions + [Condition(techs[i])];
    }
    assert techs[..|techs|] == techs;
  }

  /** What replaces `{tech}` in each mode. */
  function Expansion(mode: Mode, techs: seq<string>): string
  {
    match mode
    case ConditionMode => "\"" + Join(Conditions(techs), ConditionSeparator) + "\""
    case TagsMode => ToLower(Join(techs, ","))
    case NoMode => ""
  }

  /** The command run for a record with kept tags `techs`; empty when the
      template names neither `-tc` nor `-tags`. */
  function Command(template: string, techs: seq<string>): string
  {
    var mode := ModeOf(template);
    if mode == NoMode then "" else ReplaceAll(template, Placeholder, Expansion(mode, techs))
  }

  /** Lines 121-134: the command string for one record. */
  method SynthesizeCommand(template: string, techs: seq<string>) returns (cmd: string)
    ensures cmd == Command(template, techs)
  {
    var tech := ToLower(Join(techs, ","));
    cmd := "";
    if Contains(template, "-tc") {
      var conditions := BuildConditions(techs);
      cmd := ReplaceAll(template, Placeholder, "\"" + Join(conditions, ConditionSeparator) + "\"");
    } else if Contains(template, "-tags") {
      cmd := ReplaceAll(template, Placeholder, tech);
    }
  }

  /** Every `{tech}` is replaced and the text between them is untouched: the
      command is the template's pieces around `{tech}` joined by the expansion. */
  lemma CommandReplacesEveryPlaceholder(template: string, techs: seq<string>)
    requires ModeOf(template) != NoMode
    ensures Command(template, techs) == Join(Split(template, Placeholder), Expansion(ModeOf(template), techs))
    ensures Join(Split(template, Placeholder), Placeholder) == template
  {
    ReplaceAllIsJoinOfSplit(template, Placeholder, Expansion(ModeOf(template), techs));
    JoinSplit(template, Placeholder);
  }

  /** A template with one `{tech}` becomes the text around it with the
      expansion in its place. */
  lemma CommandSinglePlaceholder(pre: string, post: string, techs: seq<string>)
    requires '{' !in pre && '{' !in post
    requires ModeOf(pre + Placeholder + post) != NoMode
    ensures Command(pre + Placeholder + post, techs)
      == pre + Expansion(ModeOf(pre + Placeholder + post), techs) + post
  {
    var template := pre + Placeholder + post;
    var rep := Expansion(ModeOf(template), techs);
    IndexOfAfterPrefix(pre, Placeholder, post);
    assert template[..|pre|] == pre;
    assert template[|pre| + |Placeholder|..] == post;
    IndexOfAbsentRune(post, Placeholder);
    assert ReplaceAll(post, Placeholder, rep) == post;
    assert ReplaceAll(template, Placeholder, rep) == pre + rep + ReplaceAll(post, Placeholder, rep);
  }

  /** Tags mode with one `{tech}`: the kept tags, lowercased and joined by
      `,`, take its place. */
  lemma TagsCommand(pre: string, post: string, techs: seq<string>)
    requires '{' !in pre && '{' !in post
    requires ModeOf(pre + Placeholder + post) == TagsMode
    ensures Command(pre + Placeholder + post, techs) == pre + Join(LowerAll(techs), ",") + post
  {
    CommandSinglePlaceholder(pre, post, techs);
    LowerJoin(techs, ",");
  }

  /** Condition mode with one `{tech}`: one quoted expression, the kept tags'
      conditions joined by ` || `, takes its place. */
  lemma ConditionCommand(pre: string, post: string, techs: seq<string>)
    requires '{' !in pre && '{' !in post
    requires ModeOf(pre + Placeholder + post) == ConditionMode
    ensures Command(pre + Placeholder + post, techs)
      == pre + "\"" + Join(Conditions(techs), ConditionSeparator) + "\"" + post
  {
    CommandSinglePlaceholder(pre, post, techs);
  }

  lemma {:induction false} LowerJoin(parts: seq<string>, sep: string)
    requires IsLower(sep)
    ensures ToLower(Join(parts, sep)) == Join(LowerAll(parts), sep)
    decreases |parts|
  {
    if |parts| > 1 {
      LowerJoin(parts[1..], sep);
      assert LowerAll(parts)[1..] == LowerAll(parts[1..]);
      LowerOfLower(sep);
      LowerAppend(parts[0] + sep, Join(parts[1..], sep));
      LowerAppend(parts[0], sep);
    }
  }

  lemma LowerAppend(a: string, b: string)
    ensures ToLower(a + b) == ToLower(a) + ToLower(b)
  {
    ToLowerAt(a + b);
    ToLowerAt(a);
    ToLowerAt(b);
  }

  /** Tags mode: the expansion is the lowercased tags joined by `,`, and when
      no tag holds a `,` splitting it on `,` gives them back one by one. */
  lemma {:induction false} TagsExpansionRoundTrip(techs: seq<string>)
    requires |techs| >= 1
    requires forall k | 0 <= k < |techs| :: ',' !in techs[k]
    ensures Expansion(TagsMode, techs) == Join(LowerAll(techs), ",")
    ensures Split(Expansion(TagsMode, techs), ",") == LowerAll(techs)
  {
    LowerJoin(techs, ",");
    forall k | 0 <= k < |techs| ensures ',' !in LowerAll(techs)[k] {
      var t := techs[k];
      ToLowerAt(t);
      forall i | 0 <= i < |t| ensures LowerAll(techs)[k][i] != ',' {
        assert LowerAll(techs)[k][i] == LowerChar(t[i]);
      }
    }
    SplitJoin(LowerAll(techs), ",");
  }

  /** Condition mode: the expansion is one quoted expression, and since a
      kept tag holds no space, splitting its inside on ` || ` gives back the
      conditions, one per kept tag, in order. */
  lemma {:induction false} ConditionExpansionRoundTrip(techs: seq<string>)
    requires |techs| >= 1
    requires forall k | 0 <= k < |techs| :: ' ' !in techs[k]
    ensures Expansion(ConditionMode, techs) == "\"" + Join(Conditions(techs), ConditionSeparator) + "\""
    ensures Split(Join(Conditions(techs), ConditionSeparator), ConditionSeparator) == Conditions(techs)
  {
    forall k | 0 <= k < |techs| ensures ' ' !in Conditions(techs)[k] {
      var t := techs[k];
      ToLowerAt(t);
      assert ' ' !in ToLower(t);
    }
    SplitJoin(Conditions(techs), ConditionSeparator);
  }

  // ---------------------------------------------------------------------------
  // Per-record plan

  /** What happens to one decoded record. */
  datatype Plan =
    | NoJob                                  // null tech: no goroutine at all
    | Skipped(host: string)                  // "SKIPPED: <host> tech is empty"
    | Run(host: string, command: string)     // the command handed to `sh -c`

  function PlanFor(rec: TechData, excl: seq<string>, template: string): Plan
  {
    match rec.tech
    case None => NoJob
    case Some(raw) =>
      var techs := FilterTags(raw, excl);
      if techs == [] then Skipped(rec.host) else Run(rec.host, Command(template, techs))
  }

  /** The work done for one record, up to the launch of the subprocess. */
  method ProcessRecord(rec: TechData, excl: seq<string>, template: string) returns (plan: Plan)
    ensures plan == PlanFor(rec, excl, template)
  {
    if rec.tech.None? {
      return NoJob;
    }
    var techs := FilterTechs(rec.tech.value, excl);
    if |techs| == 0 {
      return Skipped(rec.host);
    }
    var cmd := SynthesizeCommand(template, techs);
    plan := Run(rec.host, cmd);
  }

  /** The skip rules: a null list makes no job; a list none of whose tags
      passes the filter is skipped; otherwise the command is synthesised from
      the kept tags, and it is empty when the template names neither flag. */
  lemma PlanForCases(rec: TechData, excl: seq<string>, template: string)
    ensures PlanFor(rec, excl, template) == NoJob <==> rec.tech.None?
    ensures PlanFor(rec, excl, template).Skipped? <==>
      rec.tech.Some? && forall j | 0 <= j < |rec.tech.value| :: !Keeps(TagNames(rec.tech.value)[j], excl)
    ensures PlanFor(rec, excl, template).Run? && ModeOf(template) == NoMode ==>
      PlanFor(rec, excl, template).command == ""
  {
    if rec.tech.Some? {
      FilterTagsEmptyIff(rec.tech.value, excl);
    }
  }

  // ---------------------------------------------------------------------------
  // The sequential run over all records

  datatype Launch = Launch(host: string, command: string)

  /** The subprocesses started for a stream of records, in input order. */
  function Launches(records: seq<TechData>, excl: seq<string>, template: string): seq<Launch>
  {
    if records == [] then []
    else
      var plan := PlanFor(records[|records| - 1], excl, template);
      Launches(records[..|records| - 1], excl, template)
        + (if plan.Run? then [Launch(plan.host, plan.command)] else [])
  }

  /** The decode loop, with each record handled to completion before the next. */
  method Dispatch(records: seq<TechData>, excl: seq<string>, template: string) returns (launches: seq<Launch>)
    ensures launches == Launches(records, excl, template)
  {
    launches := [];
    for i := 0 to |records|
      invariant launches == Launches(records[..i], excl, template)
    {
      assert records[..i + 1][..i] == records[..i];
      var plan := ProcessRecord(records[i], excl, template);
      if plan.Run? {
        launches := launches + [Launch(plan.host, plan.command)];
      }
    }
    assert records[..|records|] == records;
  }

  /** Records with a non-null tech list. */
  function NonNull(records: seq<TechData>): nat
  {
    if records == [] then 0
    else NonNull(records[..|records| - 1]) + (if records[|records| - 1].tech.Some? then 1 else 0)
  }

  /** Records with a non-null tech list of which at least one tag passes. */
  function Scheduled(records: seq<TechData>, excl: seq<string>): nat
  {
    if records == [] then 0
    else
      var r := records[|records| - 1];
      Scheduled(records[..|records| - 1], excl)
        + (if r.tech.Some? && FilterTags(r.tech.value, excl) != [] then 1 else 0)
  }

  /** Exactly one subprocess is started per record with a non-null,
      non-empty-after-filtering tech list, which bounds them by the non-null
      records; and each one is for such a record's host. */
  lemma {:induction false} LaunchesBounded(records: seq<TechData>, excl: seq<string>, template: string)
    ensures |Launches(records, excl, template)| == Scheduled(records, excl) <= NonNull(records) <= |records|
    ensures forall l | l in Launches(records, excl, template) ::
      exists r | r in records :: r.host == l.host && r.tech.Some? && FilterTags(r.tech.value, excl) != []
  {
    if records != [] {
      var init := records[..|records| - 1];
      LaunchesBounded(init, excl, template);
      forall l | l in Launches(records, excl, template)
        ensures exists r | r in records :: r.host == l.host && r.tech.Some? && FilterTags(r.tech.value, excl) != []
      {
        if l in Launches(init, excl, template) {
          var r :| r in init && r.host == l.host && r.tech.Some? && FilterTags(r.tech.value, excl) != [];
          assert r in records;
        } else {
          assert records[|records| - 1] in records;
        }
      }
    }
  }

  // ---------------------------------------------------------------------------
  // Output-line classifier and the append file

  /** A line qualifies when it has at least three whitespace-separated fields
      and each of the first three starts with `[`. */
  predicate IsStructured(line: string)
  {
    var parts := Fields(line);
    |parts| >= 3 && "[" <= parts[0] && "[" <= parts[1] && "[" <= parts[2]
  }

  /** What one scanned line adds to the append file. */
  function Appended(line: string, enabled: bool): string
  {
    if enabled && IsStructured(line) then line + "\n" else ""
  }

  /** The `--append-output` file as the run sees it: opened in append mode
      when the flag is non-empty, written one line at a time. */
  class OutputSink {
    const enabled: bool
    var content: string

    constructor (appendOutput: string, existing: string)
      ensures enabled == (appendOutput != "") && content == existing
    {
      enabled := appendOutput != "";
      content := existing;
    }

    /** Lines 160-167 for one scanned line. */
    method HandleLine(line: string)
      modifies this
      ensures content == old(content) + Appended(line, enabled)
    {
      var parts := Fields(line);
      if |parts| >= 3 && "[" <= parts[0] && "[" <= parts[1] && "[" <= parts[2] {
        if enabled {
          content := content + line + "\n";
        }
      }
    }
  }

  /** What is appended is the line itself with exactly one `\n` after it, and
      only when the file is enabled and the line qualifies. */
  lemma AppendedIsOneLine(line: string, enabled: bool)
    requires '\n' !in line
    ensures Appended(line, enabled) != "" <==> enabled && IsStructured(line)
    ensures Appended(line, enabled) != "" ==>
      Appended(line, enabled)[..|line|] == line
      && Split(Appended(line, enabled), "\n") == [line, ""]
  {
    if enabled && IsStructured(line) {
      SplitJoin([line, ""], "\n");
      assert Join([line, ""], "\n") == line + "\n";
    }
  }

  lemma FieldsOfThreeWords(w1: string, w2: string, w3: string, rest: string)
    requires w1 != [] && NoSpace(w1) && w2 != [] && NoSpace(w2) && w3 != [] && NoSpace(w3)
    requires rest == [] || IsSpace(rest[0])
    ensures Fields(w1 + " " + w2 + " " + w3 + rest) == [w1, w2, w3] + Fields(rest)
  {
    var tail3 := w3 + rest;
    var tail2 := w2 + ([' '] + tail3);
    var tail1 := w1 + ([' '] + tail2);
    SpacedWords(w1, w2, w3, rest);
    var fr := Fields(rest);
    FieldsCons(w3, rest);
    FieldsAfterSpace(' ', tail3);
    assert Fields([' '] + tail3) == [w3] + fr;
    FieldsCons(w2, [' '] + tail3);
    assert Fields(tail2) == [w2] + ([w3] + fr);
    FieldsAfterSpace(' ', tail2);
    FieldsCons(w1, [' '] + tail2);
    assert Fields(tail1) == [w1] + ([w2] + ([w3] + fr));
    Cons3(w1, w2, w3, fr);
  }

  lemma Cons3(a: string, b: string, c: string, f: seq<string>)
    ensures [a] + ([b] + ([c] + f)) == [a, b, c] + f
  {
  }

  lemma SpacedWords(w1: string, w2: string, w3: string, rest: string)
    ensures w1 + " " + w2 + " " + w3 + rest == w1 + ([' '] + (w2 + ([' '] + (w3 + rest))))
  {
  }

  /** Three bracketed words at the head of a line, whatever follows them
      after whitespace, make it qualify. */
  lemma ThreeBracketedWordsQualify(w1: string, w2: string, w3: string, rest: string)
    requires w1 != [] && NoSpace(w1) && w1[0] == '['
    requires w2 != [] && NoSpace(w2) && w2[0] == '['
    requires w3 != [] && NoSpace(w3) && w3[0] == '['
    requires rest == [] || IsSpace(rest[0])
    ensures IsStructured(w1 + " " + w2 + " " + w3 + rest)
  {
    FieldsOfThreeWords(w1, w2, w3, rest);
    var f := Fields(w1 + " " + w2 + " " + w3 + rest);
    assert f[0] == w1 && f[1] == w2 && f[2] == w3;
    assert "[" <= w1 && "[" <= w2 && "[" <= w3;
  }

  /** Two words are never enough. */
  lemma TwoWordsDoNotQualify(w1: string, w2: string)
    requires w1 != [] && NoSpace(w1)
    requires w2 != [] && NoSpace(w2)
    ensures !IsStructured(w1 + " " + w2)
  {
    FieldsOfTwoWords(w1, w2);
  }

  lemma FieldsOfTwoWords(w1: string, w2: string)
    requires w1 != [] && NoSpace(w1)
    requires w2 != [] && NoSpace(w2)
    ensures Fields(w1 + " " + w2) == [w1, w2]
  {
    var tail := [' '] + w2;
    FieldsOfWord(w2);
    FieldsAfterSpace(' ', w2);
    FieldsCons(w1, tail);
    assert w1 + " " + w2 == w1 + tail;
    assert [w1] + [w2] == [w1, w2];
  }

  lemma FieldsOfWord(w: string)
    requires w != [] && NoSpace(w)
    ensures Fields(w) == [w]
  {
    FieldsCons(w, "");
    assert w + "" == w;
    FieldsOfEmpty();
  }

  /** A scanner line like `[info] [http] [tag] extra text` qualifies. */
  lemma StructuredExample()
    ensures IsStructured("[info] [http] [tag] extra text")
  {
    var w1, w2, w3, rest := "[info]", "[http]", "[tag]", " extra text";
    assert NoSpace(w1) && NoSpace(w2) && NoSpace(w3);
    ThreeBracketedWordsQualify(w1, w2, w3, rest);
    ExampleLineSpelled();
  }

  lemma ExampleLineSpelled()
    ensures "[info]" + " " + "[http]" + " " + "[tag]" + " extra text" == "[info] [http] [tag] extra text"
  {
  }

  /** `partial output` does not qualify. */
  lemma UnstructuredExample()
    ensures !IsStructured("partial output")
  {
    assert NoSpace("partial") && NoSpace("output");
    TwoWordsDoNotQualify("partial", "output");
    assert "partial" + " " + "output" == "partial output";
  }
}

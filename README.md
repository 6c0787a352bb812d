# vulntechx, modelled in Dafny

vulntechx is a command-line tool that runs the nuclei scanner against web
hosts, choosing templates by the technologies httpx detected on each host.
This project models its deterministic core and proves properties of it.

* `httpxjson` (cmd/httpxjson.go) reads httpx lines of the form
  `host [A,B,C]` and turns each one into a `{host, count, tech}` record.
  It lives in module `HttpxJson`.
* `nuclei` (cmd/nuclei.go) reads those records back. Module `Nuclei` models
  these parts of it:
  * It normalises the `--exclude-tech` list.
  * It filters each record's technologies.
  * It skips records with a null tech list or an empty list after filtering.
  * It builds the nuclei command from the `--cmd` template, in `-tc`
    (condition) or `-tags` mode.
  * It decides which scanner output lines go to the `--append-output` file.
* The root command (cmd/root.go) checks for a newer release. Module `Version`
  models this:
  * The current version comes from the output of `vulntechx -v`, using the
    regular expression `Current vulntechx version (v[0-9]+\.[0-9]+\.[0-9]+)`.
  * The latest version comes from the first `const version =` line of the
    published banner/banner.go.
  * Nothing is installed when the two versions are equal.
  * banner/banner.go is the producer of both texts, so the round trips are
    proved from its line 8 (the constant), line 11 (`PrintVersion`) and
    line 23 (the banner tagline).
* `Strings` models the subset of Go's `strings` package that these files use:
  * `TrimSpace`, with Go's whitespace set;
  * `ToLower`;
  * `Index` and `Contains`;
  * `Split` and `Join`;
  * `Replace` with `-1`;
  * `TrimSuffix`;
  * `Trim` with a one-rune cutset;
  * `Fields`.
* `Wrappers` holds `Option` and `Result`.

The model follows the form of the Go code:
* The loops are methods, each proved against a specification function:
  * exclusion normalisation, which updates an array in place;
  * the tag filter;
  * `contains`;
  * the condition builder;
  * the record and line loops.
* The append file is a class whose content the line handler extends.
* Everything else is pure functions and lemmas.

Where the code's behaviour is easy to misread, the model follows what the code does:
* A record whose `tech` is null makes no job (`NoJob`), as the comment at
  cmd/nuclei.go:88 says. Nothing is printed unless `--verbose` is set, so
  this is not the "SKIPPED" path of lines 116-119, which is taken only when
  every tag is filtered out.
* A template that contains neither `-tc` nor `-tags` gives an empty command
  string. That command is still handed to the shell, and the model records a
  `Run` with `""` rather than rejecting the template.
* `getLatestVersion` slices from offset 16 after testing a 15-character
  prefix. A line that is exactly `const version =` therefore panics. The
  model keeps this as the outcome `SliceOutOfRange` and the decision `Crash`.

## Model

| member | source | states |
|---|---|---|
| Nuclei.NormalizeInPlace | cmd/nuclei.go:53-55 | the array afterwards holds every original entry lowercased then trimmed, in the same order |
| Nuclei.NormalizeEntry | cmd/nuclei.go:54 | one exclusion entry as compared: lowercased, then trimmed |
| Nuclei.ExclusionList | cmd/nuclei.go:52-55 | the flag split on `,`, every piece normalised |
| Nuclei.ParseExclusions | cmd/nuclei.go:52-55 | the exclusion list is the flag split on `,` with every piece normalised |
| Nuclei.NormalizeEntryNormal | cmd/nuclei.go:54 | a normalised entry is lowercase with no surrounding whitespace, and normalising it again changes nothing |
| Nuclei.ExclusionEntriesNormalized | cmd/nuclei.go:52-55 | the list has at least one entry, and every entry is lowercase, trimmed and a fixed point of normalisation |
| Nuclei.EmptyFlagExcludesEmpty | cmd/nuclei.go:52-55 | an empty `--exclude-tech` gives the one entry `""` |
| Nuclei.SingleEntryFlag | cmd/nuclei.go:52-55 | a flag without `,` that is already lowercase and trimmed is its own one-entry list |
| Nuclei.ContainsEntry | cmd/nuclei.go:183-190 | the scan answers true exactly when the item is in the list |
| Nuclei.SplitOnce | cmd/nuclei.go:105 | `strings.SplitN(s, sep, 2)`: the whole text, or the text before and after the first `sep` |
| Nuclei.TagName | cmd/nuclei.go:105-107 | the name of a raw tag: the text before its first `:`, trimmed |
| Nuclei.Keeps | cmd/nuclei.go:109 | the filter's test: no space character, and the lowercase form is not an exclusion entry |
| Nuclei.Passing | cmd/nuclei.go:104-112 | the names that pass the test, in order |
| Nuclei.FilterTags | cmd/nuclei.go:103-113 | the kept tags of a record: the passing names of its raw tags, in order |
| Nuclei.FilterTechs | cmd/nuclei.go:103-113 | the loop returns the filter's result: the raw tags' names that pass, in source order |
| Nuclei.TagNameNormal | cmd/nuclei.go:105-107 | a tag name holds no `:` and no surrounding whitespace, and it is its own name |
| Nuclei.PlainTagName | cmd/nuclei.go:105-107 | a tag without `:` and without surrounding whitespace names itself |
| Nuclei.VersionedTagName | cmd/nuclei.go:105-107 | the part after the first `:` is dropped: `name:version` names `name` |
| Nuclei.KeepsIff | cmd/nuclei.go:109 | a name is kept iff it holds no space character and its lowercase form is not an exclusion entry |
| Nuclei.EmptyNameKeptIff | cmd/nuclei.go:109 | an empty name is kept iff `""` is not excluded, and an empty flag drops it |
| Nuclei.PassingSubsequence | cmd/nuclei.go:103-113 | the kept names are the names with some left out, in their order |
| Nuclei.PassingCounts | cmd/nuclei.go:103-113 | every name that passes is kept exactly as often as it occurs, and no other name is kept |
| Nuclei.FilterTagsCounts | cmd/nuclei.go:103-113 | the kept tags hold each passing tag name exactly as often as the raw tags name it, duplicates included, and nothing else |
| Nuclei.FilterTagsSound | cmd/nuclei.go:103-113 | every kept tag is the name of a raw tag, passes the test, and holds no space, no `:` and no surrounding whitespace; the kept tags are a subsequence of the names |
| Nuclei.FilterTagsEmptyIff | cmd/nuclei.go:103-116 | the filter's result is empty iff no raw tag's name passes |
| Nuclei.FilterTagsIdempotent | cmd/nuclei.go:103-113 | filtering the kept tags again with the same exclusions returns them unchanged |
| Nuclei.FilterPair | cmd/nuclei.go:103-113 | two raw tags give the first name if it passes, then the second if it passes |
| Nuclei.ExclusionIgnoresCase | cmd/nuclei.go:109 | excluding the lowercase form of a plain tag drops the tag whatever its case |
| Nuclei.ModeOf | cmd/nuclei.go:124-134 | condition mode iff the template contains `-tc`; tags mode iff it contains `-tags` and not `-tc`; neither otherwise |
| Nuclei.Condition | cmd/nuclei.go:128 | the nuclei condition for one tag: `contains(to_lower(name),'<lowercased tag>')` |
| Nuclei.BuildConditions | cmd/nuclei.go:126-129 | the loop returns one condition per kept tag, in order |
| Nuclei.Expansion | cmd/nuclei.go:121-133 | what replaces `{tech}`: the double-quoted join of the conditions on the ConditionSeparator, the lowercased `,`-join of the tags, or nothing |
| Nuclei.Command | cmd/nuclei.go:121-134 | the template with every `{tech}` replaced by the mode's expansion, or `""` when neither flag appears |
| Nuclei.SynthesizeCommand | cmd/nuclei.go:121-134 | the command equals the specification `Command` of the template and the kept tags |
| Nuclei.CommandReplacesEveryPlaceholder | cmd/nuclei.go:130-133 | the command is the template's pieces around `{tech}` joined by the expansion, and those pieces joined by `{tech}` are the template |
| Nuclei.CommandSinglePlaceholder | cmd/nuclei.go:130-133 | with a single `{tech}`, the text around it is kept and the expansion takes its place |
| Nuclei.TagsCommand | cmd/nuclei.go:121-133 | in tags mode, `{tech}` becomes the lowercased kept tags joined by `,` |
| Nuclei.ConditionCommand | cmd/nuclei.go:126-130 | in condition mode, `{tech}` becomes one quoted expression of conditions joined by the ConditionSeparator |
| Nuclei.LowerJoin | cmd/nuclei.go:121 | lowercasing a join is joining the lowercased pieces |
| Nuclei.TagsExpansionRoundTrip | cmd/nuclei.go:121-133 | splitting the `-tags` expansion on `,` gives back the lowercased tags, one by one |
| Nuclei.ConditionExpansionRoundTrip | cmd/nuclei.go:126-130 | splitting the quoted expression's inside on the ConditionSeparator gives back one condition per kept tag, in order |
| Nuclei.PlanFor | cmd/nuclei.go:88-119 | a null list makes no job, an empty filtered list is skipped, anything else runs its command |
| Nuclei.ProcessRecord | cmd/nuclei.go:88-134 | a record's handling returns the specification plan: no job, skipped, or a run with its command |
| Nuclei.PlanForCases | cmd/nuclei.go:88-119 | no job iff `tech` is null; skipped iff `tech` is non-null and no tag passes; a template with neither flag runs the empty command |
| Nuclei.Launches | cmd/nuclei.go:79-119 | the subprocesses started for a stream of records, one per record whose plan is a run, in input order |
| Nuclei.Dispatch | cmd/nuclei.go:79-119 | the decode loop launches exactly the specification's launches, in input order |
| Nuclei.LaunchesBounded | cmd/nuclei.go:88-119 | the launches number exactly the records with a non-null `tech` of which some tag passes, hence no more than the non-null records; each launch is for the host of such a record |
| Nuclei.OutputSink.constructor | cmd/nuclei.go:65-73 | the sink is enabled iff `--append-output` is non-empty and starts with the file's existing content |
| Nuclei.IsStructured | cmd/nuclei.go:160-161 | a line qualifies when it has at least three fields and the first three start with `[` |
| Nuclei.Appended | cmd/nuclei.go:161-165 | what a line adds to the append file: the line and `\n` when enabled and qualifying, else nothing |
| Nuclei.OutputSink.HandleLine | cmd/nuclei.go:159-168 | the file grows by exactly what the classifier appends for the line, and nothing else changes |
| Nuclei.AppendedIsOneLine | cmd/nuclei.go:161-165 | something is appended iff the sink is enabled and the line qualifies, and then it is the line plus one `\n` |
| Nuclei.ThreeBracketedWordsQualify | cmd/nuclei.go:160-161 | three `[`-prefixed words, followed by nothing or whitespace and anything, qualify |
| Nuclei.TwoWordsDoNotQualify | cmd/nuclei.go:160-161 | a line of two words never qualifies |
| Nuclei.StructuredExample | cmd/nuclei.go:159-161 | `[info] [http] [tag] extra text` qualifies |
| Nuclei.UnstructuredExample | cmd/nuclei.go:160-161 | `partial output` does not qualify |
| HttpxJson.ParseLine | cmd/httpxjson.go:51-73 | the record of one line: trimmed host before the first ` [`, the list after it without one trailing `]`, split on `,` when non-empty |
| HttpxJson.TechList | cmd/httpxjson.go:58 | the text after the first ` [` with one trailing `]` removed |
| HttpxJson.ParseLineAccepts | cmd/httpxjson.go:51-54 | a line gives a record iff it contains ` [` |
| HttpxJson.ParseLineHost | cmd/httpxjson.go:51-57 | the host is the trimmed text before the first ` [` and never contains ` [` |
| HttpxJson.ParseLineTech | cmd/httpxjson.go:58-66 | `tech` is null with count 0 iff the list text is empty; otherwise count is the number of entries (at least 1), no entry holds `,`, and they join back with `,` into the list text |
| HttpxJson.ParseAll | cmd/httpxjson.go:47-92 | the records of a stream of lines: one per line that parses, in order |
| HttpxJson.ConvertLines | cmd/httpxjson.go:47-92 | the scanner loop yields the specification's records, one per accepted line, in order |
| HttpxJson.ParseAllAppend | cmd/httpxjson.go:47-92 | the records of two runs of lines are the records of each run, one after the other |
| HttpxJson.ParseAllCount | cmd/httpxjson.go:47-92 | no more records than lines, and exactly one per line when every line holds ` [` |
| HttpxJson.FormatParseRoundTrip | cmd/httpxjson.go:51-73 | an httpx line built from a trimmed host and a list of names without `,` parses back to that host, that list and its length; an empty list gives a null `tech` |
| HttpxJson.EmptyListMakesNoJob | cmd/httpxjson.go:60-73 | a host whose bracket list is empty reaches `nuclei` with a null `tech`, and so makes no job |
| Version.ConstantLine | banner/banner.go:8 | the declaration line of the `version` constant for a given value |
| Version.PrintVersionOutput | banner/banner.go:11 | what `PrintVersion` prints: the marker, the version and a line break |
| Version.VersionFlagOutput | banner/banner.go:23 | the standard output of `vulntechx -v`: the art, the tagline padded to 60 runes, a blank line, then `PrintVersion`'s line |
| Version.ExtractVersion | cmd/root.go:128-129 | the value of a prefixed line: from offset 16, trimmed, stripped of `"` at both ends; the slice fails on a shorter line |
| Version.LatestFromLines | cmd/root.go:125-134 | the value of the first prefixed line, or "version not found" |
| Version.LatestVersion | cmd/root.go:125-134 | `getLatestVersion` on the fetched body: its lines split on `\n` and searched |
| Version.LatestFromFirstMatch | cmd/root.go:125-134 | the first line with the prefix decides, and later lines are never read; with no such line the result is "version not found" |
| Version.ExtractVersionOutcome | cmd/root.go:126-130 | the slice fails iff the line is exactly `const version =`; a value read has no `"` at either end |
| Version.LatestOfJoinedLines | cmd/root.go:125 | searching a body is searching its lines |
| Version.ConstantLineGivesVersion | banner/banner.go:8 | the constant's line reads back as the constant |
| Version.PreambleSkipped | banner/banner.go:1-7 | no line before the constant is taken for it |
| Version.BannerLinesGiveVersion | banner/banner.go:1-8 | the lines of banner.go give its constant, whatever follows line 8 |
| Version.BannerSourceGivesVersion | banner/banner.go:8 | the fetched body of banner.go gives its constant |
| Version.MatchAt | cmd/root.go:97 | the capture of the pattern when a match starts at a position: the marker, `v`, three dot-separated greedy digit groups |
| Version.FindFrom | cmd/root.go:98 | the leftmost match at or after a position |
| Version.CurrentVersion | cmd/root.go:97-102 | the leftmost capture in the output, or "current version not found" |
| Version.FindFromLeftmost | cmd/root.go:98 | the search finds nothing iff no position from the start has a match; otherwise it returns the match at the leftmost position that has one |
| Version.CurrentVersionLeftmost | cmd/root.go:97-102 | "current version not found" iff the pattern matches nowhere in the output; otherwise the capture of the leftmost match |
| Version.CurrentVersionShape | cmd/root.go:97-102 | a successful `getCurrentVersion` returns `v` followed by three dot-separated digit groups |
| Version.MatchAtVersion | cmd/root.go:97-98 | a match starting at the marker captures the whole version when a non-digit or the end follows it |
| Version.Padding60 | banner/banner.go:23 | `%60s` pads with spaces to 60 runes, adds nothing to a text of 60 runes or more, and never cuts |
| Version.PrintedVersionParsesBack | banner/banner.go:11 | a printed version, after any text without `C`, is read back exactly |
| Version.VersionFlagOutputParsesBack | banner/banner.go:23 | the whole output of `vulntechx -v` (banner, tagline, `PrintVersion`) gives back the version |
| Version.Decide | cmd/root.go:55-77 | a failed current read exits first; then a failed latest read exits, or crashes on the slice panic; two equal versions are up to date; two different versions install from the current to the latest |
| Version.SameBannerNoUpdate | cmd/root.go:67-70 | installed and published from the same banner.go, the tool decides it is up to date |
| Version.ShippedVersion | banner/banner.go:8 | the shipped `v0.0.4` has the version shape and reads back from both the `-v` output and the fetched file |
| Strings.IsSpace | cmd/httpxjson.go:57 | Go's `unicode.IsSpace`: the Latin-1 spaces and the Unicode White_Space runes |
| Strings.ToLower | cmd/nuclei.go:54 | Go's `strings.ToLower` on ASCII letters, rune by rune; same length |
| Strings.IndexFrom | cmd/httpxjson.go:51 | the first occurrence at or after a position: it occurs there and at no earlier position; none means it occurs at no position from there |
| Strings.IndexOf | cmd/httpxjson.go:51 | Go's `strings.Index`: the first position where the text occurs, or none |
| Strings.Contains | cmd/nuclei.go:109 | Go's `strings.Contains`: the text occurs somewhere |
| Strings.ContainsIffOccurs | cmd/nuclei.go:124 | containment holds exactly when the text occurs at some position |
| Strings.TrimSpace | cmd/httpxjson.go:57 | Go's `strings.TrimSpace`: the text between the leading and the trailing whitespace |
| Strings.Split | cmd/httpxjson.go:64 | Go's `strings.Split` for a non-empty separator: at least one piece |
| Strings.Join | cmd/nuclei.go:121 | Go's `strings.Join` |
| Strings.ReplaceAll | cmd/nuclei.go:130 | Go's `strings.Replace` with `-1`: every occurrence, left to right |
| Strings.TrimSuffix | cmd/httpxjson.go:58 | Go's `strings.TrimSuffix`: the text with one copy of the suffix removed, or unchanged |
| Strings.TrimSuffixCases | cmd/httpxjson.go:58 | a trailing suffix that is present is removed once, leaving the text before it; an absent one leaves the text unchanged |
| Strings.TrimRune | cmd/root.go:129 | Go's `strings.Trim` with a one-rune cutset: no copy of the rune left at either end |
| Strings.TrimRuneSlice | cmd/root.go:129 | the result is a slice of the text with only copies of the rune cut off around it; with `TrimRune`'s own contract, exactly the runs at both ends go |
| Strings.Fields | cmd/nuclei.go:160 | Go's `strings.Fields`: the non-empty runs without whitespace |
| Strings.TrimSpaceSpec | cmd/httpxjson.go:57 | the trimmed text has no whitespace at either end and is the slice of the input between its leading and its trailing whitespace |
| Strings.JoinSplit | cmd/httpxjson.go:64 | joining the pieces of a split with the separator restores the text |
| Strings.SplitJoin | cmd/httpxjson.go:64 | splitting a join gives the pieces back when none holds the separator's first rune |
| Strings.ReplaceAllIsJoinOfSplit | cmd/nuclei.go:130 | replacing every occurrence is joining the pieces between occurrences with the replacement |
| Strings.FieldsConcat | cmd/nuclei.go:160 | the fields put together are the line without its whitespace |

## Left out

- Concurrency is not modelled: the goroutines, the semaphore that bounds `--parallel` and the WaitGroup. Records are handled one after another, in input order. The bound on concurrently running jobs is not stated.
- The subprocess is not modelled: `sh -c`, its stdin, its pipes, start and wait errors, and the echo to the console. `Launch` records the host and command that would be handed to the shell, and `HandleLine` takes the scanner's lines as input.
- JSON decoding and encoding are left out: `json.Decoder`, `MarshalIndent`, and the fatal error on malformed input. Records are `TechData` and `TechInfo` values, with a null list as `None`.
- File, console and network I/O are left out, along with flag parsing and verbose messages. The HTTP fetch of banner.go and the run of `vulntechx -v` are inputs: the body or output text is a parameter. Their failures are the `FetchFailed` and `CommandFailed` cases of `VersionError`.
- Write errors on the append file are not modelled. Opening it is the constructor, and the existing content is a parameter.
- `go install` and the rest of the update step after the decision are left out.
- `bufio.Scanner` details are left out: the 64 KiB line limit, and `\r\n` handling. Lines are given already split.
- Strings are sequences of runes, while Go indexes and slices them in bytes. The offset 16 at cmd/root.go:128 is a byte offset. A line whose 16th byte falls inside a multi-byte rune (a `é` or a non-breaking space right after `const version =`) reads differently: Go cuts the rune and the model does not.
- Strings.ToLower: only ASCII letters are lowercased. Go's Unicode case mapping is not modelled.
- Strings.Split and Strings.ReplaceAll: an empty separator or pattern is not modelled. The tool never uses one.
- Version.CurrentVersion: the regular-expression engine is replaced by a direct matcher for this one pattern. It finds the leftmost match and takes greedy digit groups.
- Version.PrintedVersionParsesBack and Version.VersionFlagOutputParsesBack: the ASCII art is a parameter, required only to contain no `C`. Its text is not reproduced.
- Nuclei.StructuredExample and Nuclei.UnstructuredExample are the only concrete lines checked. The general lemmas carry the classifier's properties.

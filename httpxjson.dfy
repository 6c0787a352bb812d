/** The `httpxjson` subcommand (cmd/httpxjson.go): each line of httpx output
    of the form `host [A,B,C]` becomes a `{host, count, tech}` record, which
    is what the `nuclei` subcommand later reads back. */
module HttpxJson {
  import opened Wrappers
  import opened Strings
  import Nuclei

  /** The output record (`TechInfo`). `tech` is `None` where Go leaves the
      slice nil, which is marshalled as JSON null. */
  datatype TechInfo = TechInfo(host: string, count: int, tech: Option<seq<string>>)

  const Opening := " ["

  /** The text after the first ` [` with one trailing `]` removed. */
  function TechList(line: string): string
    requires Contains(line, Opening)
  {
    var i := IndexOf(line, Opening).value;
    TrimSuffix(line[i + |Opening|..], "]")
  }

  /** One input line, or `None` for a line without ` [`, which is skipped. */
  function ParseLine(line: string): Option<TechInfo>
  {
    match IndexOf(line, Opening)
    case None => None
    case Some(i) =>
      var host := TrimSpace(line[..i]);
      var techList := TrimSuffix(line[i + |Opening|..], "]");
      if techList == "" then Some(TechInfo(host, 0, None))
      else
        var techArray := Split(techList, ",");
        Some(TechInfo(host, |techArray|, Some(techArray)))
  }

  /** The host is the trimmed text before the first ` [`, and so holds no
      ` [` itself. */
  lemma ParseLineHost(line: string)
    requires Contains(line, Opening)
    ensures ParseLine(line).Some?
    ensures ParseLine(line).value.host == TrimSpace(line[..IndexOf(line, Opening).value])
    ensures !Contains(ParseLine(line).value.host, Opening)
  {
    var i := IndexOf(line, Opening).value;
    var before := line[..i];
    PrefixBeforeFirstLacksIt(line, i, Opening);
    var a := LeadingSpaces(before);
    var host := TrimSpace(before);
    TrimSpaceSpec(before);
    SliceKeepsAbsent(before, a, a + |host|, Opening);
  }

  /** An empty list gives a null `tech` and count 0; otherwise `tech` has
      `count >= 1` entries that join back with `,` into the list text. */
  lemma ParseLineTech(line: string)
    requires Contains(line, Opening)
    ensures ParseLine(line).Some?
    ensures ParseLine(line).value.tech.None? <==> TechList(line) == ""
    ensures ParseLine(line).value.tech.None? ==> ParseLine(line).value.count == 0
    ensures ParseLine(line).value.tech.Some? ==>
      ParseLine(line).value.count == |ParseLine(line).value.tech.value| >= 1
      && Join(ParseLine(line).value.tech.value, ",") == TechList(line)
      && forall k | 0 <= k < |ParseLine(line).value.tech.value| :: ',' !in ParseLine(line).value.tech.value[k]
  {
    if TechList(line) != "" {
      var pieces := Split(TechList(line), ",");
      JoinSplit(TechList(line), ",");
      SplitPiecesLackSeparator(TechList(line), ",");
      forall k | 0 <= k < |pieces| ensures ',' !in pieces[k] {
        ContainsChar(pieces[k], ',');
      }
    }
  }

  /** A line yields a record exactly when it holds ` [`. */
  lemma ParseLineAccepts(line: string)
    ensures ParseLine(line).Some? <==> Contains(line, Opening)
  {
  }

  /** The per-line loop: one record per accepted line, in input order. */
  function ParseAll(lines: seq<string>): seq<TechInfo>
  {
    if lines == [] then []
    else
      var rec := ParseLine(lines[|lines| - 1]);
      ParseAll(lines[..|lines| - 1]) + (if rec.Some? then [rec.value] else [])
  }

  /** The scanner loop of lines 47-92, without the JSON printing. */
  method ConvertLines(lines: seq<string>) returns (records: seq<TechInfo>)
    ensures records == ParseAll(lines)
  {
    records := [];
    for n := 0 to |lines|
      invariant records == ParseAll(lines[..n])
    {
      assert lines[..n + 1][..n] == lines[..n];
      var line := lines[n];
      var i := IndexOf(line, Opening);
      if i.None? {
        continue;
      }
      var host := TrimSpace(line[..i.value]);
      var techList := TrimSuffix(line[i.value + |Opening|..], "]");
      var techArray: Option<seq<string>> := None;
      var count := 0;
      if techList != "" {
        var parts := Split(techList, ",");
        techArray := Some(parts);
        count := |parts|;
      }
      records := records + [TechInfo(host, count, techArray)];
    }
    assert lines[..|lines|] == lines;
  }

  /** Records are produced line by line: the records of two consecutive runs
      of lines are the records of each run, one after the other. */
  lemma {:induction false} ParseAllAppend(a: seq<string>, b: seq<string>)
    ensures ParseAll(a + b) == ParseAll(a) + ParseAll(b)
    decreases |b|
  {
    if b == [] {
      assert a + b == a;
    } else {
      var b' := b[..|b| - 1];
      ParseAllAppend(a, b');
      assert (a + b)[..|a + b| - 1] == a + b';
      assert (a + b)[|a + b| - 1] == b[|b| - 1];
    }
  }

  /** No more records than lines, and exactly one for each line holding ` [`. */
  lemma {:induction false} ParseAllCount(lines: seq<string>)
    ensures |ParseAll(lines)| <= |lines|
    ensures (forall k | 0 <= k < |lines| :: Contains(lines[k], Opening)) ==> |ParseAll(lines)| == |lines|
  {
    if lines != [] {
      var init := lines[..|lines| - 1];
      ParseAllCount(init);
      assert forall k | 0 <= k < |init| :: init[k] == lines[k];
    }
  }

  /** The line httpx prints for a host and its technologies. */
  function FormatLine(host: string, techs: seq<string>): string
  {
    host + Opening + Join(techs, ",") + "]"
  }

  lemma OpeningAfterTrimmedHost(host: string, rest: string)
    requires NoSpaceAround(host) && !Contains(host, Opening)
    ensures IndexOf(host + Opening + rest, Opening) == Some(|host|)
  {
    var line := host + Opening + rest;
    assert line[|host|..|host| + 2] == Opening;
    assert IsAt(line, Opening, |host|);
    forall j | 0 <= j < |host|
      ensures !IsAt(line, Opening, j)
    {
      if j + 2 <= |host| {
        assert host[j..j + 2] == line[j..j + 2];
        assert !IsAt(host, Opening, j);
      } else {
        assert line[j] == host[j] != ' ';
        assert line[j..j + 2][0] == line[j];
      }
    }
  }

  /** Round trip with the producer: a trimmed host without ` [` and a
      non-empty list of technologies without `,` (other than the single empty
      name) parse back to that host, the list and its length; an empty list
      parses to a null `tech`. */
  lemma FormatParseRoundTrip(host: string, techs: seq<string>)
    requires NoSpaceAround(host) && !Contains(host, Opening)
    requires forall k | 0 <= k < |techs| :: ',' !in techs[k]
    requires techs != [""]
    ensures ParseLine(FormatLine(host, techs)) ==
      if techs == [] then Some(TechInfo(host, 0, None))
      else Some(TechInfo(host, |techs|, Some(techs)))
  {
    var joined := Join(techs, ",");
    var line := FormatLine(host, techs);
    FormatLinePieces(host, joined);
    TrimSpaceOfTrimmed(host);
    ParseLineOf(line, |host|, host, joined);
    if techs != [] {
      SplitJoin(techs, ",");
      if |techs| >= 2 {
        assert |joined| >= 1;
      }
    }
  }

  /** Where the host and the list sit in a formatted line. */
  lemma FormatLinePieces(host: string, joined: string)
    requires NoSpaceAround(host) && !Contains(host, Opening)
    ensures var line := host + Opening + joined + "]";
      && IndexOf(line, Opening) == Some(|host|)
      && line[..|host|] == host
      && TrimSuffix(line[|host| + |Opening|..], "]") == joined
  {
    var line := host + Opening + joined + "]";
    assert line == host + Opening + (joined + "]");
    OpeningAfterTrimmedHost(host, joined + "]");
    assert line[..|host|] == host;
    var tail := line[|host| + |Opening|..];
    assert tail == joined + "]";
    assert tail[|tail| - 1..] == "]";
    assert tail[..|tail| - 1] == joined;
  }

  /** The record of a line, given where its first ` [` is. */
  lemma ParseLineOf(line: string, i: nat, host: string, techList: string)
    requires IndexOf(line, Opening) == Some(i)
    requires TrimSpace(line[..i]) == host
    requires TrimSuffix(line[i + |Opening|..], "]") == techList
    ensures ParseLine(line) ==
      if techList == "" then Some(TechInfo(host, 0, None))
      else Some(TechInfo(host, |Split(techList, ",")|, Some(Split(techList, ","))))
  {
  }

  /** The record the `nuclei` subcommand decodes from a `TechInfo` (it has no
      `count` field and ignores it). */
  function ToTechData(info: TechInfo): Nuclei.TechData
  {
    Nuclei.TechData(info.host, info.tech)
  }

  /** A host whose httpx line has an empty bracket list reaches the `nuclei`
      subcommand with a null `tech`, so no job is made for it. */
  lemma EmptyListMakesNoJob(line: string, excl: seq<string>, template: string)
    requires Contains(line, Opening) && TechList(line) == ""
    ensures Nuclei.PlanFor(ToTechData(ParseLine(line).value), excl, template) == Nuclei.NoJob
  {
    ParseLineTech(line);
  }
}

/** The configuration reader: each line of the tab-delimited configuration
    file names a source repository followed by the mirrors it is pushed to. */
module Config {
  import opened Text

  /** `os.linesep` on a POSIX host: the characters stripped from both ends of
      every line. */
  const LineSep: string := "\n"

  /** The field separator of the configuration file. */
  const Tab: char := '\t'

  /** One configuration entry: `(source_url, dest_urls)`. */
  datatype Entry = Entry(sourceUrl: string, destUrls: seq<string>)

  /** The line with its terminator stripped. */
  function CleanLine(line: string): string
  {
    Strip(line, LineSep)
  }

  /** The entry one line of the file parses to: the first tab-separated field
      of the cleaned line is the source, the remaining fields are the
      destinations. */
  function ParseLine(line: string): (e: Entry)
    ensures Tab !in e.sourceUrl
    ensures forall i :: 0 <= i < |e.destUrls| ==> Tab !in e.destUrls[i]
  {
    var fields := Split(CleanLine(line), Tab);
    Entry(fields[0], fields[1..])
  }

  /** A line has as many destinations as its cleaned text has tabs. */
  lemma ParseLineDestCount(line: string)
    ensures |ParseLine(line).destUrls| == multiset(CleanLine(line))[Tab]
  {
    SplitCount(CleanLine(line), Tab);
  }

  /** `parse_config` over the lines `readlines` returns: one entry per line,
      in file order. */
  method ParseConfig(configLines: seq<string>) returns (configList: seq<Entry>)
    ensures |configList| == |configLines|
    ensures forall i :: 0 <= i < |configLines| ==> configList[i] == ParseLine(configLines[i])
  {
    configList := [];
    for i := 0 to |configLines|
      invariant |configList| == i
      invariant forall k :: 0 <= k < i ==> configList[k] == ParseLine(configLines[k])
    {
      var cleanLine := Strip(configLines[i], LineSep);
      var fields := Split(cleanLine, Tab);
      var sourceUrl := fields[0];
      var destUrls := fields[1..];
      assert Entry(sourceUrl, destUrls) == ParseLine(configLines[i]);
      configList := configList + [Entry(sourceUrl, destUrls)];
    }
  }

  /** Round trip: the source and the destinations joined by tabs give back the
      cleaned line. */
  lemma ParseLineRoundTrip(line: string)
    ensures var e := ParseLine(line);
      Join([e.sourceUrl] + e.destUrls, Tab) == CleanLine(line)
  {
    var fields := Split(CleanLine(line), Tab);
    assert [fields[0]] + fields[1..] == fields;
    JoinSplit(CleanLine(line), Tab);
  }

  /** Conversely, the parsed entry is the only tab-free way to cut the cleaned
      line into a source and destinations. */
  lemma ParseLineUnique(line: string, source: string, dests: seq<string>)
    requires Tab !in source
    requires forall i :: 0 <= i < |dests| ==> Tab !in dests[i]
    requires Join([source] + dests, Tab) == CleanLine(line)
    ensures ParseLine(line) == Entry(source, dests)
  {
    var parts := [source] + dests;
    assert forall i :: 0 <= i < |parts| ==> Tab !in parts[i] by {
      forall i | 0 <= i < |parts| ensures Tab !in parts[i] {
        if i > 0 { assert parts[i] == dests[i - 1]; }
      }
    }
    SplitJoin(parts, Tab);
    assert parts[1..] == dests;
  }

  /** A line has no destinations exactly when its cleaned text has no tab;
      then the whole cleaned line is the source. */
  lemma ParseLineNoTab(line: string)
    ensures ParseLine(line).destUrls == [] <==> Tab !in CleanLine(line)
    ensures Tab !in CleanLine(line) ==> ParseLine(line).sourceUrl == CleanLine(line)
  {
    ParseLineDestCount(line);
    assert Tab in CleanLine(line) <==> Tab in multiset(CleanLine(line));
    if Tab !in CleanLine(line) {
      ParseLineRoundTrip(line);
    }
  }

  /** Stripping a written text, with or without its terminator, gives the
      text back when it neither starts nor ends with a terminator character. */
  lemma CleanWritten(text: string, terminated: bool)
    requires text == [] || (text[0] !in LineSep && text[|text| - 1] !in LineSep)
    ensures CleanLine(if terminated then text + LineSep else text) == text
  {
    var line := if terminated then text + LineSep else text;
    if text == [] {
      if terminated {
        assert line == LineSep;
        LeadingExact(line, LineSep, 1);
      }
    } else {
      StripPadded([], text, if terminated then LineSep else [], LineSep);
      assert [] + text + (if terminated then LineSep else []) == line;
    }
  }

  /** A line written as the source and its destinations joined by tabs, with
      or without its terminator, parses back to that source and those
      destinations, provided the written text neither starts nor ends with a
      terminator character (an empty text, a blank line, included). */
  lemma ParseWrittenLine(sourceUrl: string, destUrls: seq<string>, terminated: bool)
    requires Tab !in sourceUrl
    requires forall i :: 0 <= i < |destUrls| ==> Tab !in destUrls[i]
    requires var text := Join([sourceUrl] + destUrls, Tab);
      text == [] || (text[0] !in LineSep && text[|text| - 1] !in LineSep)
    ensures var text := Join([sourceUrl] + destUrls, Tab);
      ParseLine(if terminated then text + LineSep else text) == Entry(sourceUrl, destUrls)
  {
    var text := Join([sourceUrl] + destUrls, Tab);
    CleanWritten(text, terminated);
    ParseLineUnique(if terminated then text + LineSep else text, sourceUrl, destUrls);
  }

  /** `"A\tB\tC"` parses to `("A", ["B", "C"])`. */
  lemma ParseThreeFields()
    ensures ParseLine("A\tB\tC") == Entry("A", ["B", "C"])
  {
    assert Join(["A", "B", "C"], Tab) == "A\tB\tC";
    ParseWrittenLine("A", ["B", "C"], false);
  }
}

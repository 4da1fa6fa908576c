/** Section extraction from the document text (`DocumentProcessor` in
    src/document_processor.py): find the first line that mentions a section
    name and copy lines forward until the next section header or until the
    line budget runs out. */
module DocumentProcessor {
  import opened Optional
  import opened Text

  /** A compiled `section_header` regex, seen only through `pattern.match`
      applied to a stripped line. Regular-expression semantics are not
      modelled: any predicate on strings may stand for the pattern. */
  type Pattern = string -> bool

  /** Lines extracted per section when no budget is given. */
  const DEFAULT_MAX_SECTION_LINES: int := 100

  /** The processor's configuration as the section logic consults it: the
      compiled `section_header` pattern, or `None` when it is not configured. */
  datatype Processor = Processor(sectionHeader: Option<Pattern>)

  /** `pattern and pattern.match(line.strip())` */
  predicate IsHeaderLine(header: Option<Pattern>, line: string) {
    header.Some? && header.value(Strip(line))
  }

  function EffectiveMaxLines(maxLines: Option<int>): int {
    if maxLines.None? then DEFAULT_MAX_SECTION_LINES else maxLines.value
  }

  /** The exclusive end of Python's slice `lines[1:stop]` over `n` lines: a
      negative stop counts from the end, and the result is clamped to `0..n`. */
  function SliceStop(stop: int, n: nat): (e: nat)
    ensures e <= n
    ensures 0 <= stop ==> e == if stop <= n then stop else n
  {
    if stop < 0 then (if stop + n < 0 then 0 else stop + n)
    else if stop <= n then stop else n
  }

  /** Where the scan that starts at line `i` ends: the first header line in
      `i..stop`, or `stop` if there is none (or `i` itself once `i >= stop`). */
  function ScanEnd(header: Option<Pattern>, lines: seq<string>, i: nat, stop: nat): (k: nat)
    requires 1 <= i <= |lines| && stop <= |lines|
    ensures i <= k <= |lines|
    ensures k == i || k <= stop
    ensures forall j :: i <= j < k ==> !IsHeaderLine(header, lines[j])
    ensures k < stop ==> IsHeaderLine(header, lines[k])
    decreases |lines| - i
  {
    if i >= stop || IsHeaderLine(header, lines[i]) then i
    else ScanEnd(header, lines, i + 1, stop)
  }

  /** The number of lines `_extract_until_next_section` keeps. */
  function SectionLength(header: Option<Pattern>, lines: seq<string>, maxLines: Option<int>): (k: nat)
    requires |lines| >= 1
    ensures 1 <= k <= |lines|
  {
    ScanEnd(header, lines, 1, SliceStop(EffectiveMaxLines(maxLines), |lines|))
  }

  /** The text `_extract_until_next_section` returns. It always begins with
      the line it was started on, whether or not that line looks like a
      header. */
  function Section(header: Option<Pattern>, lines: seq<string>, maxLines: Option<int>): (section: string)
    requires |lines| >= 1
    ensures lines[0] <= section
  {
    Join('\n', lines[..SectionLength(header, lines, maxLines)])
  }

  /** `_extract_until_next_section`: keep `lines[0]` unconditionally, then
      copy `lines[1:max_lines]` up to (not including) the first header line,
      and join the kept lines with line feeds. */
  method ExtractUntilNextSection(p: Processor, lines: seq<string>, maxLines: Option<int>)
    returns (section: string)
    requires |lines| >= 1
    ensures section == Join('\n', lines[..SectionLength(p.sectionHeader, lines, maxLines)])
  {
    var limit := if maxLines.None? then DEFAULT_MAX_SECTION_LINES else maxLines.value;
    var stop := SliceStop(limit, |lines|);
    ghost var k := ScanEnd(p.sectionHeader, lines, 1, stop);
    var content := [lines[0]];
    var i := 1;
    while i < stop
      invariant 1 <= i <= |lines|
      invariant content == lines[..i]
      invariant ScanEnd(p.sectionHeader, lines, i, stop) == k
      decreases stop - i
    {
      if IsHeaderLine(p.sectionHeader, lines[i]) {
        break;
      }
      ScanPastOrdinaryLine(p.sectionHeader, lines, i, stop);
      content := content + [lines[i]];
      i := i + 1;
    }
    ScanStopsHere(p.sectionHeader, lines, i, stop);
    section := Join('\n', content);
  }

  /** A line that is not a header, before the stop, does not end the scan. */
  lemma ScanPastOrdinaryLine(header: Option<Pattern>, lines: seq<string>, i: nat, stop: nat)
    requires 1 <= i < stop <= |lines|
    requires !IsHeaderLine(header, lines[i])
    ensures ScanEnd(header, lines, i, stop) == ScanEnd(header, lines, i + 1, stop)
    ensures lines[..i + 1] == lines[..i] + [lines[i]]
  {
  }

  /** The scan ends where it starts at the stop or at a header line. */
  lemma ScanStopsHere(header: Option<Pattern>, lines: seq<string>, i: nat, stop: nat)
    requires 1 <= i <= |lines| && stop <= |lines|
    requires i >= stop || IsHeaderLine(header, lines[i])
    ensures ScanEnd(header, lines, i, stop) == i
  {
  }

  /** With a budget of at least one line the extract keeps at most that many
      lines; without a budget the default of 100 applies. */
  lemma SectionWithinBudget(header: Option<Pattern>, lines: seq<string>, maxLines: Option<int>)
    requires |lines| >= 1
    requires maxLines.Some? ==> maxLines.value >= 1
    ensures maxLines.None? ==> SectionLength(header, lines, maxLines) <= DEFAULT_MAX_SECTION_LINES
    ensures maxLines.Some? ==> SectionLength(header, lines, maxLines) <= maxLines.value
  {
  }

  /** The kept lines stop exactly at the first later header: no kept line
      after the first is a header, and when the extract is shorter than the
      budget allows, the next line is one. */
  lemma SectionStopsAtFirstHeader(header: Option<Pattern>, lines: seq<string>, m: int)
    requires |lines| >= 1 && m >= 1
    ensures var k := SectionLength(header, lines, Some(m));
      (forall j :: 1 <= j < k ==> !IsHeaderLine(header, lines[j])) &&
      (k < |lines| && k < m ==> IsHeaderLine(header, lines[k]))
  {
  }

  /** Without a `section_header` pattern the extract never stops early: it
      is the first `min(len(lines), max_lines)` lines. */
  lemma SectionWithoutPattern(lines: seq<string>, m: int)
    requires |lines| >= 1 && m >= 1
    ensures SectionLength(None, lines, Some(m)) == if m <= |lines| then m else |lines|
  {
  }

  /** When the lines came from splitting on line feeds, splitting the extract
      again gives back exactly the kept prefix of lines. */
  lemma SectionLines(header: Option<Pattern>, lines: seq<string>, maxLines: Option<int>)
    requires |lines| >= 1
    requires forall j :: 0 <= j < |lines| ==> '\n' !in lines[j]
    ensures Split(Section(header, lines, maxLines), '\n') == lines[..SectionLength(header, lines, maxLines)]
  {
    SplitJoin(lines[..SectionLength(header, lines, maxLines)], '\n');
  }

  /** `section_name.lower() in line.lower()` */
  predicate Mentions(line: string, name: string) {
    Contains(Lower(line), Lower(name))
  }

  /** The index of the first line at or after `from` that mentions `name`. */
  function FirstMention(lines: seq<string>, name: string, from: nat): (r: Option<nat>)
    requires from <= |lines|
    ensures r.Some? ==> from <= r.value < |lines| && Mentions(lines[r.value], name)
    ensures r.Some? ==> forall j :: from <= j < r.value ==> !Mentions(lines[j], name)
    ensures r.None? ==> forall j :: from <= j < |lines| ==> !Mentions(lines[j], name)
    decreases |lines| - from
  {
    if from == |lines| then None
    else if Mentions(lines[from], name) then Some(from)
    else FirstMention(lines, name, from + 1)
  }

  /** What `_find_section` returns. */
  function FoundSection(p: Processor, text: string, name: string): (r: Option<string>)
    ensures r.None? <==>
      p.sectionHeader.None? ||
      forall j :: 0 <= j < |Split(text, '\n')| ==> !Mentions(Split(text, '\n')[j], name)
  {
    if p.sectionHeader.None? then None
    else
      var lines := Split(text, '\n');
      match FirstMention(lines, name, 0)
      case None => None
      case Some(i) =>
        assert Mentions(Split(text, '\n')[i], name);
        Some(Section(p.sectionHeader, lines[i..], None))
  }

  /** `_find_section` extracts from the first line that mentions the name. */
  lemma FoundSectionAtFirstMention(p: Processor, text: string, name: string, i: nat)
    requires p.sectionHeader.Some?
    requires i < |Split(text, '\n')| && Mentions(Split(text, '\n')[i], name)
    requires forall j :: 0 <= j < i ==> !Mentions(Split(text, '\n')[j], name)
    ensures FoundSection(p, text, name) == Some(Section(p.sectionHeader, Split(text, '\n')[i..], None))
  {
    var r := FirstMention(Split(text, '\n'), name, 0);
    assert r.Some?;
    assert r.value == i;
  }

  /** A section found for a non-empty name is never empty text: the line it
      starts on contains the name. */
  lemma FoundSectionNonEmpty(p: Processor, text: string, name: string)
    requires name != "" && FoundSection(p, text, name).Some?
    ensures FoundSection(p, text, name).value != ""
  {
    var lines := Split(text, '\n');
    var i := FirstMention(lines, name, 0).value;
    assert Contains(Lower(lines[i]), Lower(name));
    assert |lines[i]| > 0;
    assert lines[i..][0] <= Section(p.sectionHeader, lines[i..], None);
  }

  /** `_find_section`: no pattern configured means no section; otherwise scan
      the lines for the first mention of the name and extract from there. */
  method FindSection(p: Processor, text: string, name: string) returns (r: Option<string>)
    ensures r == FoundSection(p, text, name)
  {
    if p.sectionHeader.None? {
      return None;
    }
    var lines := Split(text, '\n');
    for i := 0 to |lines|
      invariant forall j :: 0 <= j < i ==> !Mentions(lines[j], name)
    {
      if Contains(Lower(lines[i]), Lower(name)) {
        var section := ExtractUntilNextSection(p, lines[i..], None);
        FoundSectionAtFirstMention(p, text, name, i);
        return Some(section);
      }
    }
    return None;
  }

  /** A name is stored exactly when its search gives a non-empty section. */
  predicate Stored(p: Processor, text: string, name: string) {
    var found := FoundSection(p, text, name);
    found.Some? && found.value != ""
  }

  /** The map `extract_sections` builds from the given names, in order: its
      keys are requested names. */
  function Sections(p: Processor, text: string, names: seq<string>): (sections: map<string, string>)
    ensures forall n :: n in sections ==> n in names
    decreases |names|
  {
    if |names| == 0 then map[]
    else
      var last := names[|names| - 1];
      var earlier := Sections(p, text, names[..|names| - 1]);
      if Stored(p, text, last) then earlier[last := FoundSection(p, text, last).value] else earlier
  }

  /** The extracted map holds exactly the requested names whose search gives
      a non-empty section, each mapped to that section. */
  lemma {:induction false} SectionsHoldStoredNames(p: Processor, text: string, names: seq<string>)
    ensures forall n :: n in Sections(p, text, names) ==>
      Stored(p, text, n) && Some(Sections(p, text, names)[n]) == FoundSection(p, text, n)
    ensures forall n :: n in names ==> (n in Sections(p, text, names) <==> Stored(p, text, n))
    decreases |names|
  {
    if |names| > 0 {
      var front := names[..|names| - 1];
      SectionsHoldStoredNames(p, text, front);
      assert names == front + [names[|names| - 1]];
    }
  }

  /** `extract_sections`: map each requested name to its section, leaving out
      names whose search gives `None` or an empty string. */
  method ExtractSections(p: Processor, text: string, names: seq<string>)
    returns (sections: map<string, string>)
    ensures sections == Sections(p, text, names)
  {
    sections := map[];
    for i := 0 to |names|
      invariant sections == Sections(p, text, names[..i])
    {
      var content := FindSection(p, text, names[i]);
      assert names[..i + 1][..i] == names[..i];
      if content.Some? && content.value != "" {
        sections := sections[names[i] := content.value];
      }
    }
    assert names[..|names|] == names;
  }

  /** For non-empty names, a name is missing from the extracted map exactly
      when `_find_section` gives `None`: no fallback text is stored. */
  lemma StoredIffFound(p: Processor, text: string, name: string)
    requires name != ""
    ensures Stored(p, text, name) <==> FoundSection(p, text, name).Some?
  {
    if FoundSection(p, text, name).Some? {
      FoundSectionNonEmpty(p, text, name);
    }
  }
}

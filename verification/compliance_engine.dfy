/** The compliance "judge" (`ComplianceEngine` in src/compliance_engine.py):
    it formats a prompt, asks the language model, and parses the free-text
    reply into a status with an explanation and excerpts; it also groups
    covenant lines into records and scores a reply's confidence. */
module ComplianceEngine {
  import opened Optional
  import opened Text

  /** The reply `_query_llm` gives when no API key is configured. */
  const MOCK_REPLY: string :=
    "\n" + MOCK_STATUS_LINE + "\n" + MOCK_EXPLANATION_LINE + "\n" + MOCK_EXCERPTS_LINE + "\n"

  const MOCK_STATUS_LINE: string := "Compliance Status: PASS"
  const MOCK_EXPLANATION_LINE: string :=
    "Explanation: The document " + "section contains " + "appropriate provisions " +
    "that meet the " + "specified requirement."
  const MOCK_EXCERPTS_LINE: string := "Relevant Excerpts: " + "[Mock excerpt " + "from document]"

  /** The engine as the parsing logic sees it. `apiKey` is the configured key
      (empty when neither the argument nor the environment gives one: both
      `None` and `""` are false in Python); `llm` stands for the remote model
      call, whose reply (including an `"ERROR: ..."` text on failure) is an
      arbitrary string. */
  datatype Engine = Engine(apiKey: string, llm: string -> string)

  /** `prompt_template.format(document_section=..., rule=...)` */
  type PromptTemplate = (string, string) -> string

  /** `_query_llm`: the fixed mock reply without a key, which reads as PASS;
      the model's reply otherwise. */
  function QueryLlm(e: Engine, prompt: string): (reply: string)
    ensures e.apiKey == "" ==> StatusOf(reply) == "PASS"
    ensures e.apiKey != "" ==> reply == e.llm(prompt)
  {
    if e.apiKey == "" then MockReplyStatus(); MOCK_REPLY else e.llm(prompt)
  }

  // ---------------------------------------------------------------------
  // _parse_compliance_response
  // ---------------------------------------------------------------------

  /** The status is one of the three keywords. */
  function StatusOf(response: string): (status: string)
    ensures status == "PASS" || status == "FAIL" || status == "UNCLEAR"
  {
    if Contains(Upper(response), "PASS") then "PASS"
    else if Contains(Upper(response), "FAIL") then "FAIL"
    else "UNCLEAR"
  }

  /** The status is decided by keyword, ignoring case: PASS wherever PASS
      occurs, otherwise FAIL wherever FAIL occurs, otherwise UNCLEAR. */
  lemma ParseStatus(response: string)
    ensures StatusOf(response) == "PASS" <==> Contains(Upper(response), "PASS")
    ensures StatusOf(response) == "FAIL" <==>
      !Contains(Upper(response), "PASS") && Contains(Upper(response), "FAIL")
    ensures StatusOf(response) == "UNCLEAR" <==>
      !Contains(Upper(response), "PASS") && !Contains(Upper(response), "FAIL")
  {
  }

  datatype Field = Explanation | Excerpts

  /** Whether a reply line sets the field: a line mentioning "explanation"
      sets the explanation only, even if it also mentions "excerpt". */
  predicate SetsField(line: string, f: Field) {
    if Contains(Lower(line), "explanation") then f == Explanation
    else f == Excerpts && Contains(Lower(line), "excerpt")
  }

  /** `lines[i+1] if i+1 < len(lines) else ''` */
  function LineAfter(lines: seq<string>, i: nat): string
    requires i < |lines|
  {
    if i + 1 < |lines| then lines[i + 1] else ""
  }

  /** The value of a field after the first `k` reply lines were scanned: the
      last setter wins. */
  function FieldValue(lines: seq<string>, k: nat, f: Field): string
    requires k <= |lines|
  {
    if k == 0 then ""
    else if SetsField(lines[k - 1], f) then LineAfter(lines, k - 1)
    else FieldValue(lines, k - 1, f)
  }

  /** A field is `''` or the line right after some line that sets it. */
  lemma {:induction false} FieldValueFromSetter(lines: seq<string>, k: nat, f: Field)
    requires k <= |lines|
    ensures FieldValue(lines, k, f) == "" ||
      exists j :: 0 <= j < k && SetsField(lines[j], f) && FieldValue(lines, k, f) == LineAfter(lines, j)
    decreases k
  {
    if k > 0 && !SetsField(lines[k - 1], f) {
      FieldValueFromSetter(lines, k - 1, f);
    }
  }

  /** A field is the line after the LAST line that sets it. */
  lemma {:induction false} FieldValueAfterLastSetter(lines: seq<string>, k: nat, f: Field, j: nat)
    requires j < k <= |lines| && SetsField(lines[j], f)
    requires forall m :: j < m < k ==> !SetsField(lines[m], f)
    ensures FieldValue(lines, k, f) == LineAfter(lines, j)
    decreases k
  {
    if k - 1 != j {
      FieldValueAfterLastSetter(lines, k - 1, f, j);
    }
  }

  /** A field no line sets stays empty. */
  lemma {:induction false} FieldValueWithoutSetter(lines: seq<string>, k: nat, f: Field)
    requires k <= |lines|
    requires forall m :: 0 <= m < k ==> !SetsField(lines[m], f)
    ensures FieldValue(lines, k, f) == ""
    decreases k
  {
    if k > 0 {
      FieldValueWithoutSetter(lines, k - 1, f);
    }
  }

  /** The parsed reply, as `_parse_compliance_response` builds it. */
  function Parse(response: string): (result: map<string, string>)
    ensures result.Keys == {"status", "explanation", "excerpts"}
    ensures result["status"] in ["PASS", "FAIL", "UNCLEAR"]
  {
    var lines := Split(response, '\n');
    map[
      "status" := StatusOf(response),
      "explanation" := FieldValue(lines, |lines|, Explanation),
      "excerpts" := FieldValue(lines, |lines|, Excerpts)
    ]
  }

  /** The body of the line loop in `_parse_compliance_response`: line `i`
      moves each field from its value after `i` lines to its value after
      `i + 1` lines. */
  method ParseResponseLine(result: map<string, string>, lines: seq<string>, i: nat)
    returns (result': map<string, string>)
    requires i < |lines|
    requires result.Keys == {"status", "explanation", "excerpts"}
    requires result["explanation"] == FieldValue(lines, i, Explanation)
    requires result["excerpts"] == FieldValue(lines, i, Excerpts)
    ensures result' == result["explanation" := FieldValue(lines, i + 1, Explanation)]
                             ["excerpts" := FieldValue(lines, i + 1, Excerpts)]
  {
    result' := result;
    var lower := Lower(lines[i]);
    if Contains(lower, "explanation") {
      result' := result["explanation" := if i + 1 < |lines| then lines[i + 1] else ""];
    } else if Contains(lower, "excerpt") {
      result' := result["excerpts" := if i + 1 < |lines| then lines[i + 1] else ""];
    }
  }

  /** `_parse_compliance_response`: start from UNCLEAR with empty texts,
      classify the status by keyword, then overwrite the explanation or the
      excerpts with the line after each line that names them. */
  method ParseComplianceResponse(response: string) returns (result: map<string, string>)
    ensures result == Parse(response)
  {
    result := map["status" := "UNCLEAR", "explanation" := "", "excerpts" := ""];
    var upper := Upper(response);
    if Contains(upper, "PASS") {
      result := result["status" := "PASS"];
    } else if Contains(upper, "FAIL") {
      result := result["status" := "FAIL"];
    }
    var lines := Split(response, '\n');
    for i := 0 to |lines|
      invariant result == map[
        "status" := StatusOf(response),
        "explanation" := FieldValue(lines, i, Explanation),
        "excerpts" := FieldValue(lines, i, Excerpts)]
    {
      result := ParseResponseLine(result, lines, i);
    }
  }

  /** A text of three lines framed by line feeds splits into five lines. */
  lemma SplitFramedLines(a: string, b: string, c: string)
    requires '\n' !in a && '\n' !in b && '\n' !in c
    ensures Split("\n" + a + "\n" + b + "\n" + c + "\n", '\n') == ["", a, b, c, ""]
  {
    var tail3 := c + "\n";
    var tail2 := b + "\n" + tail3;
    var tail1 := a + "\n" + tail2;
    assert "\n" + a + "\n" + b + "\n" + c + "\n" == "" + ['\n'] + tail1;
    SplitAfterSeparator("", tail1, '\n');
    SplitAfterSeparator(a, tail2, '\n');
    SplitAfterSeparator(b, tail3, '\n');
    assert tail3 == c + ['\n'] + "";
    SplitAfterSeparator(c, "", '\n');
  }

  lemma StatusLineHasNoLineFeed()
    ensures '\n' !in MOCK_STATUS_LINE
  {
  }

  lemma ExplanationLineHasNoLineFeed()
    ensures '\n' !in MOCK_EXPLANATION_LINE
  {
  }

  lemma ExcerptsLineHasNoLineFeed()
    ensures '\n' !in MOCK_EXCERPTS_LINE
  {
  }

  /** The mock reply is five lines: empty, status, explanation, excerpts,
      empty. */
  lemma MockReplyLines()
    ensures Split(MOCK_REPLY, '\n') == ["", MOCK_STATUS_LINE, MOCK_EXPLANATION_LINE, MOCK_EXCERPTS_LINE, ""]
  {
    StatusLineHasNoLineFeed();
    ExplanationLineHasNoLineFeed();
    ExcerptsLineHasNoLineFeed();
    SplitFramedLines(MOCK_STATUS_LINE, MOCK_EXPLANATION_LINE, MOCK_EXCERPTS_LINE);
  }

  /** The mock reply's status is PASS. */
  lemma MockReplyStatus()
    ensures StatusOf(MOCK_REPLY) == "PASS"
  {
    assert Upper(MOCK_REPLY)[20..24] == "PASS";
    assert "PASS" <= Upper(MOCK_REPLY)[20..];
  }

  /** The explanation line of the mock reply sets the explanation. */
  lemma MockExplanationLineSetsExplanation()
    ensures SetsField(MOCK_EXPLANATION_LINE, Explanation)
  {
    LowerPrefix("Explanation", MOCK_EXPLANATION_LINE);
    assert Lower("Explanation") == "explanation";
    assert "explanation" <= Lower(MOCK_EXPLANATION_LINE)[0..];
  }

  /** The excerpts line of the mock reply sets the excerpts only. */
  lemma MockExcerptsLineSetsExcerpts()
    ensures SetsField(MOCK_EXCERPTS_LINE, Excerpts)
    ensures !SetsField(MOCK_EXCERPTS_LINE, Explanation)
  {
    LowerPrefix("Relevant Excerpt", MOCK_EXCERPTS_LINE);
    assert Lower("Relevant Excerpt") == "relevant excerpt";
    assert "excerpt" <= Lower(MOCK_EXCERPTS_LINE)[9..];
    MockExcerptsLineLacksI();
    LowerAbsent(MOCK_EXCERPTS_LINE, 'i');
    MissingCharNotContained(Lower(MOCK_EXCERPTS_LINE), "explanation", 8);
  }

  lemma MockExcerptsLineLacksI()
    ensures 'i' !in MOCK_EXCERPTS_LINE && 'I' !in MOCK_EXCERPTS_LINE
  {
  }

  /** The mock reply parses as PASS. Because the parser takes the line AFTER
      a keyword line, its explanation is the "Relevant Excerpts" line and its
      excerpts are the empty text after the final line feed. */
  lemma MockReplyParse()
    ensures Parse(MOCK_REPLY) == map[
      "status" := "PASS",
      "explanation" := MOCK_EXCERPTS_LINE,
      "excerpts" := ""]
  {
    MockReplyLines();
    MockReplyStatus();
    MockReplyFields();
  }

  lemma MockReplyFields()
    ensures var lines := ["", MOCK_STATUS_LINE, MOCK_EXPLANATION_LINE, MOCK_EXCERPTS_LINE, ""];
      FieldValue(lines, 5, Explanation) == MOCK_EXCERPTS_LINE && FieldValue(lines, 5, Excerpts) == ""
  {
    MockExplanationLineSetsExplanation();
    MockExcerptsLineSetsExcerpts();
    assert !SetsField("", Explanation) && !SetsField("", Excerpts);
    var lines := ["", MOCK_STATUS_LINE, MOCK_EXPLANATION_LINE, MOCK_EXCERPTS_LINE, ""];
    FieldValueAfterLastSetter(lines, 5, Explanation, 2);
    FieldValueAfterLastSetter(lines, 5, Excerpts, 3);
  }

  /** The reply `_query_llm` gives WITH a key while the model call is
      commented out. */
  const PLACEHOLDER_REPLY: string := "Mock LLM response"

  lemma PlaceholderLacksAF()
    ensures 'A' !in PLACEHOLDER_REPLY && 'a' !in PLACEHOLDER_REPLY
    ensures 'F' !in PLACEHOLDER_REPLY && 'f' !in PLACEHOLDER_REPLY
  {
  }

  lemma PlaceholderLacksX()
    ensures 'X' !in PLACEHOLDER_REPLY && 'x' !in PLACEHOLDER_REPLY
    ensures '\n' !in PLACEHOLDER_REPLY
  {
  }

  /** The placeholder reply is one line naming neither PASS nor FAIL nor
      either field, so it parses as UNCLEAR with empty texts. */
  lemma PlaceholderReplyParse()
    ensures Parse(PLACEHOLDER_REPLY) == map["status" := "UNCLEAR", "explanation" := "", "excerpts" := ""]
  {
    PlaceholderStatus();
    PlaceholderFields();
  }

  lemma PlaceholderFields()
    ensures Split(PLACEHOLDER_REPLY, '\n') == [PLACEHOLDER_REPLY]
    ensures FieldValue([PLACEHOLDER_REPLY], 1, Explanation) == ""
    ensures FieldValue([PLACEHOLDER_REPLY], 1, Excerpts) == ""
  {
    assert Split(PLACEHOLDER_REPLY, '\n') == [PLACEHOLDER_REPLY] by {
      PlaceholderLacksX();
      SplitNoSeparator(PLACEHOLDER_REPLY, '\n');
    }
    var lines := [PLACEHOLDER_REPLY];
    assert !SetsField(lines[0], Explanation) && !SetsField(lines[0], Excerpts) by {
      PlaceholderSetsNoField();
    }
    FieldValueWithoutSetter(lines, 1, Explanation);
    FieldValueWithoutSetter(lines, 1, Excerpts);
  }

  lemma PlaceholderStatus()
    ensures StatusOf(PLACEHOLDER_REPLY) == "UNCLEAR"
  {
    PlaceholderLacksAF();
    UpperAbsent(PLACEHOLDER_REPLY, 'A');
    UpperAbsent(PLACEHOLDER_REPLY, 'F');
    MissingCharNotContained(Upper(PLACEHOLDER_REPLY), "PASS", 1);
    MissingCharNotContained(Upper(PLACEHOLDER_REPLY), "FAIL", 0);
  }

  lemma PlaceholderSetsNoField()
    ensures !SetsField(PLACEHOLDER_REPLY, Explanation) && !SetsField(PLACEHOLDER_REPLY, Excerpts)
  {
    PlaceholderLacksX();
    LowerAbsent(PLACEHOLDER_REPLY, 'x');
    MissingCharNotContained(Lower(PLACEHOLDER_REPLY), "explanation", 1);
    MissingCharNotContained(Lower(PLACEHOLDER_REPLY), "excerpt", 1);
  }

  // ---------------------------------------------------------------------
  // check_compliance and batch_check_compliance
  // ---------------------------------------------------------------------

  /** The parse of the mock reply, worked out once (see `MockReplyParse`). */
  const MOCK_RESULT: map<string, string> :=
    map["status" := "PASS", "explanation" := MOCK_EXCERPTS_LINE, "excerpts" := ""]

  /** `check_compliance`: format the prompt, query the model, parse the reply.
      Without an API key every check passes, because the mock reply does;
      `CheckComplianceParsesReply` shows the body is that parse. */
  function CheckCompliance(e: Engine, section: string, rule: string, template: PromptTemplate)
    : (result: map<string, string>)
    ensures result.Keys == {"status", "explanation", "excerpts"}
    ensures e.apiKey == "" ==> result["status"] == "PASS"
    ensures e.apiKey != "" ==> result["status"] == StatusOf(e.llm(template(section, rule)))
  {
    if e.apiKey == "" then MOCK_RESULT else Parse(e.llm(template(section, rule)))
  }

  /** `check_compliance` is the parse of whatever `_query_llm` answers:
      `MOCK_RESULT` is exactly the parse of the mock reply. */
  lemma CheckComplianceParsesReply(e: Engine, section: string, rule: string, template: PromptTemplate)
    ensures CheckCompliance(e, section, rule, template) == Parse(QueryLlm(e, template(section, rule)))
  {
    MockReplyParse();
  }

  /** The results of checking each (section, rule) pair in turn. */
  function CheckAll(e: Engine, checks: seq<(string, string)>, template: PromptTemplate)
    : seq<map<string, string>>
    decreases |checks|
  {
    if |checks| == 0 then []
    else
      var last := checks[|checks| - 1];
      CheckAll(e, checks[..|checks| - 1], template) + [CheckCompliance(e, last.0, last.1, template)]
  }

  /** One result per pair, in order, each the check of that pair alone:
      checks do not influence each other. */
  lemma {:induction false} CheckAllPairwise(e: Engine, checks: seq<(string, string)>, template: PromptTemplate)
    ensures |CheckAll(e, checks, template)| == |checks|
    ensures forall i :: 0 <= i < |checks| ==>
      CheckAll(e, checks, template)[i] == CheckCompliance(e, checks[i].0, checks[i].1, template)
    decreases |checks|
  {
    if |checks| > 0 {
      CheckAllPairwise(e, checks[..|checks| - 1], template);
    }
  }

  /** `batch_check_compliance`: one result per (section, rule) pair, in order. */
  method BatchCheckCompliance(e: Engine, checks: seq<(string, string)>, template: PromptTemplate)
    returns (results: seq<map<string, string>>)
    ensures results == CheckAll(e, checks, template)
  {
    results := [];
    for i := 0 to |checks|
      invariant results == CheckAll(e, checks[..i], template)
    {
      var (section, rule) := checks[i];
      var result := CheckCompliance(e, section, rule, template);
      assert checks[..i + 1][..i] == checks[..i];
      results := results + [result];
    }
    assert checks[..|checks|] == checks;
  }

  // ---------------------------------------------------------------------
  // _parse_covenant_response
  // ---------------------------------------------------------------------

  /** A covenant record: keys among "name", "threshold" and "condition". */
  type Covenant = map<string, string>

  const NAME_PREFIX: string := "- Covenant Name:"
  const THRESHOLD_PREFIX: string := "Threshold:"
  const CONDITION_PREFIX: string := "Condition:"

  /** `line.split(':', 1)[1].strip()` */
  function ValueAfterColon(line: string): string
    requires ':' in line
  {
    Strip(AfterFirst(line, ':'))
  }

  /** The text after a line prefix, stripped. */
  function FieldText(line: string, prefix: string): string
    requires prefix <= line
  {
    Strip(line[|prefix|..])
  }

  /** For a line that starts with one of the three prefixes, the text after
      the first colon is the text after the prefix. */
  lemma ValueAfterPrefix(line: string, prefix: string)
    requires prefix == NAME_PREFIX || prefix == THRESHOLD_PREFIX || prefix == CONDITION_PREFIX
    requires prefix <= line
    ensures ':' in line && ValueAfterColon(line) == FieldText(line, prefix)
  {
    assert ':' !in prefix[..|prefix| - 1];
    AfterFirstPrefix(line, prefix, ':');
  }

  /** The parser state: covenants already closed and the one being filled
      (`{}` before the first name line). */
  datatype Scan = Scan(done: seq<Covenant>, current: Covenant)

  predicate IsNameLine(raw: string) {
    NAME_PREFIX <= Strip(raw)
  }

  /** One step of the loop over reply lines: closed covenants are only ever
      appended to, and an open covenant stays open. */
  function Step(st: Scan, raw: string): (next: Scan)
    ensures next.done == st.done || (st.current != map[] && next.done == st.done + [st.current])
    ensures st.current != map[] ==> next.current != map[]
  {
    var line := Strip(raw);
    if NAME_PREFIX <= line then
      var started := map["name" := FieldText(line, NAME_PREFIX)];
      assert "name" in started;
      Scan(if st.current != map[] then st.done + [st.current] else st.done, started)
    else if THRESHOLD_PREFIX <= line && st.current != map[] then
      var updated := st.current["threshold" := FieldText(line, THRESHOLD_PREFIX)];
      assert "threshold" in updated;
      Scan(st.done, updated)
    else if CONDITION_PREFIX <= line && st.current != map[] then
      var updated := st.current["condition" := FieldText(line, CONDITION_PREFIX)];
      assert "condition" in updated;
      Scan(st.done, updated)
    else st
  }

  /** The state after the loop has run over `lines`, from `st`: the
      covenants closed before are kept in front, and an open covenant stays
      open. */
  function RunFrom(st: Scan, lines: seq<string>): (last: Scan)
    ensures st.done <= last.done
    ensures st.current != map[] ==> last.current != map[]
    decreases |lines|
  {
    if |lines| == 0 then st
    else Step(RunFrom(st, lines[..|lines| - 1]), lines[|lines| - 1])
  }

  /** The closed covenants plus the open one, if any. */
  function Flush(st: Scan): seq<Covenant> {
    if st.current != map[] then st.done + [st.current] else st.done
  }

  /** The covenants `_parse_covenant_response` returns for the given reply
      lines. */
  function CovenantsOf(lines: seq<string>): seq<Covenant> {
    Flush(RunFrom(Scan([], map[]), lines))
  }

  /** The name a line gives: one name for a name line, none otherwise. */
  function NameOf(raw: string): seq<string> {
    if IsNameLine(raw) then [FieldText(Strip(raw), NAME_PREFIX)] else []
  }

  /** The names given by the reply's name lines, in order. */
  function NameValues(lines: seq<string>): seq<string>
    decreases |lines|
  {
    if |lines| == 0 then []
    else
      NameValues(lines[..|lines| - 1]) + NameOf(lines[|lines| - 1])
  }

  /** Every record has a name, and only the three known keys. */
  predicate WellFormed(cs: seq<Covenant>) {
    forall i :: 0 <= i < |cs| ==> IsRecord(cs[i])
  }

  predicate IsRecord(c: Covenant) {
    "name" in c && c.Keys <= {"name", "threshold", "condition"}
  }

  /** The records' names, in order. */
  function Names(cs: seq<Covenant>): (names: seq<string>)
    requires WellFormed(cs)
    ensures |names| == |cs|
  {
    seq(|cs|, i requires 0 <= i < |cs| => cs[i]["name"])
  }

  lemma WellFormedSnoc(cs: seq<Covenant>, c: Covenant)
    ensures WellFormed(cs + [c]) <==> WellFormed(cs) && IsRecord(c)
  {
    if WellFormed(cs + [c]) {
      assert (cs + [c])[|cs|] == c;
      forall i | 0 <= i < |cs| ensures IsRecord(cs[i]) {
        assert (cs + [c])[i] == cs[i];
      }
    }
  }

  lemma NamesSnoc(cs: seq<Covenant>, c: Covenant)
    requires WellFormed(cs) && IsRecord(c)
    ensures WellFormed(cs + [c])
    ensures Names(cs + [c]) == Names(cs) + [c["name"]]
  {
    WellFormedSnoc(cs, c);
  }

  /** A name line closes the open covenant, if any, and opens a new one. */
  lemma StepNameLine(st: Scan, raw: string)
    requires IsNameLine(raw)
    ensures Step(st, raw) == Scan(Flush(st), map["name" := FieldText(Strip(raw), NAME_PREFIX)])
  {
  }

  /** A line that is neither a name line nor a Threshold or Condition line
      of an open covenant changes nothing. */
  lemma StepOtherLine(st: Scan, raw: string)
    requires !IsNameLine(raw)
    requires st.current == map[] || !(THRESHOLD_PREFIX <= Strip(raw) || CONDITION_PREFIX <= Strip(raw))
    ensures Step(st, raw) == st
  {
  }

  /** Filling in a threshold or a condition keeps the open record well
      formed and keeps its name. */
  lemma FillKeepsName(st: Scan, key: string, value: string)
    requires WellFormed(Flush(st)) && st.current != map[]
    requires key == "threshold" || key == "condition"
    ensures WellFormed(Flush(Scan(st.done, st.current[key := value])))
    ensures Names(Flush(Scan(st.done, st.current[key := value]))) == Names(Flush(st))
  {
    var next := st.current[key := value];
    assert key in next;
    assert Flush(Scan(st.done, next)) == st.done + [next];
    assert Flush(st) == st.done + [st.current];
    WellFormedSnoc(st.done, st.current);
    assert IsRecord(next);
    NamesSnoc(st.done, st.current);
    NamesSnoc(st.done, next);
  }

  /** A name line appends one record, named by the line. */
  lemma NameLineNames(st: Scan, raw: string)
    requires WellFormed(Flush(st)) && IsNameLine(raw)
    ensures WellFormed(Flush(Step(st, raw)))
    ensures Names(Flush(Step(st, raw))) == Names(Flush(st)) + [FieldText(Strip(raw), NAME_PREFIX)]
  {
    StepNameLine(st, raw);
    var first := map["name" := FieldText(Strip(raw), NAME_PREFIX)];
    assert IsRecord(first);
    NamesSnoc(Flush(st), first);
  }

  /** Any other line keeps the records well formed and their names as they
      were. */
  lemma OtherLineNames(st: Scan, raw: string)
    requires WellFormed(Flush(st)) && !IsNameLine(raw)
    ensures WellFormed(Flush(Step(st, raw)))
    ensures Names(Flush(Step(st, raw))) == Names(Flush(st))
  {
    var line := Strip(raw);
    if st.current != map[] && THRESHOLD_PREFIX <= line {
      ThresholdOverwrites(st, raw);
      FillKeepsName(st, "threshold", FieldText(line, THRESHOLD_PREFIX));
    } else if st.current != map[] && CONDITION_PREFIX <= line {
      ConditionOverwrites(st, raw);
      FillKeepsName(st, "condition", FieldText(line, CONDITION_PREFIX));
    } else {
      StepOtherLine(st, raw);
    }
  }

  /** One step keeps records well formed and adds the name of a name line. */
  lemma StepNames(st: Scan, raw: string)
    requires WellFormed(Flush(st))
    ensures WellFormed(Flush(Step(st, raw)))
    ensures Names(Flush(Step(st, raw))) ==
      Names(Flush(st)) + NameOf(raw)
  {
    if IsNameLine(raw) {
      NameLineNames(st, raw);
    } else {
      OtherLineNames(st, raw);
      assert Names(Flush(st)) + [] == Names(Flush(st));
    }
  }

  /** Running over lines keeps records well formed and adds exactly the
      names of the name lines. */
  lemma {:induction false} RunFromNames(st: Scan, lines: seq<string>)
    requires WellFormed(Flush(st))
    ensures WellFormed(Flush(RunFrom(st, lines)))
    ensures Names(Flush(RunFrom(st, lines))) == Names(Flush(st)) + NameValues(lines)
    decreases |lines|
  {
    if |lines| > 0 {
      var front, last := lines[..|lines| - 1], lines[|lines| - 1];
      RunFromNames(st, front);
      StepNames(RunFrom(st, front), last);
      assert NameValues(lines) == NameValues(front) + NameOf(last);
      assert RunFrom(st, lines) == Step(RunFrom(st, front), last);
    }
  }

  /** One covenant per name line, in order, each named by its line; records
      carry only the keys name, threshold and condition. */
  lemma CovenantsMatchNameLines(lines: seq<string>)
    ensures WellFormed(CovenantsOf(lines))
    ensures |CovenantsOf(lines)| == |NameValues(lines)|
    ensures forall i :: 0 <= i < |NameValues(lines)| ==>
      CovenantsOf(lines)[i]["name"] == NameValues(lines)[i]
  {
    RunFromNames(Scan([], map[]), lines);
    var cs := CovenantsOf(lines);
    assert Names(cs) == NameValues(lines);
    forall i | 0 <= i < |NameValues(lines)|
      ensures cs[i]["name"] == NameValues(lines)[i]
    {
      assert Names(cs)[i] == cs[i]["name"];
    }
  }

  /** Running over lines one after another is running over their
      concatenation. */
  lemma {:induction false} RunFromAppend(st: Scan, a: seq<string>, b: seq<string>)
    ensures RunFrom(st, a + b) == RunFrom(RunFrom(st, a), b)
    decreases |b|
  {
    if |b| == 0 {
      assert a + b == a;
    } else {
      RunFromAppend(st, a, b[..|b| - 1]);
      assert (a + b)[..|a + b| - 1] == a + b[..|b| - 1];
    }
  }

  /** Without a name line nothing is recorded: Threshold and Condition lines
      before the first covenant are ignored. */
  lemma {:induction false} RunWithoutNames(lines: seq<string>)
    requires forall j :: 0 <= j < |lines| ==> !IsNameLine(lines[j])
    ensures RunFrom(Scan([], map[]), lines) == Scan([], map[])
    decreases |lines|
  {
    if |lines| > 0 {
      RunWithoutNames(lines[..|lines| - 1]);
    }
  }

  /** Lines in front of the first name line do not change the result. */
  lemma LeadingLinesIgnored(before: seq<string>, rest: seq<string>)
    requires forall j :: 0 <= j < |before| ==> !IsNameLine(before[j])
    ensures CovenantsOf(before + rest) == CovenantsOf(rest)
  {
    RunFromAppend(Scan([], map[]), before, rest);
    RunWithoutNames(before);
  }

  /** The value given by the last line whose stripped form starts with
      `prefix`, or `None` when no line does. */
  function LastValue(lines: seq<string>, prefix: string): Option<string>
    decreases |lines|
  {
    if |lines| == 0 then None
    else
      var line := Strip(lines[|lines| - 1]);
      if prefix <= line then Some(FieldText(line, prefix))
      else LastValue(lines[..|lines| - 1], prefix)
  }

  /** There is a value exactly when some line starts with the prefix. */
  lemma {:induction false} LastValueExists(lines: seq<string>, prefix: string)
    ensures LastValue(lines, prefix).Some? <==> exists j :: 0 <= j < |lines| && prefix <= Strip(lines[j])
    decreases |lines|
  {
    if |lines| > 0 {
      var n := |lines| - 1;
      if prefix <= Strip(lines[n]) {
        assert 0 <= n < |lines| && prefix <= Strip(lines[n]);
      } else {
        var front := lines[..n];
        assert LastValue(lines, prefix) == LastValue(front, prefix);
        LastValueExists(front, prefix);
        if LastValue(front, prefix).Some? {
          assert exists j :: 0 <= j < |lines| && prefix <= Strip(lines[j]) by {
            var j :| 0 <= j < n && prefix <= Strip(front[j]);
            assert lines[j] == front[j];
          }
        } else {
          assert forall j :: 0 <= j < |lines| ==> !(prefix <= Strip(lines[j])) by {
            forall j | 0 <= j < |lines|
              ensures !(prefix <= Strip(lines[j]))
            {
              if j < n {
                assert lines[j] == front[j];
              } else {
                assert j == n;
              }
            }
          }
        }
      }
    }
  }



  /** The value is the one given by the LAST line with the prefix. */
  lemma {:induction false} LastValueIsLastSetter(lines: seq<string>, prefix: string, j: nat)
    requires j < |lines| && prefix <= Strip(lines[j])
    requires forall m :: j < m < |lines| ==> !(prefix <= Strip(lines[m]))
    ensures LastValue(lines, prefix) == Some(FieldText(Strip(lines[j]), prefix))
    decreases |lines|
  {
    if j < |lines| - 1 {
      LastValueIsLastSetter(lines[..|lines| - 1], prefix, j);
    }
  }

  /** An open covenant after the lines of its block (lines without a name
      line): each Threshold line sets the threshold and each Condition line
      sets the condition, in order. */
  function Fill(current: Covenant, body: seq<string>): (filled: Covenant)
    ensures current.Keys <= filled.Keys <= current.Keys + {"threshold", "condition"}
    decreases |body|
  {
    if |body| == 0 then current
    else
      var filled := Fill(current, body[..|body| - 1]);
      var line := Strip(body[|body| - 1]);
      if THRESHOLD_PREFIX <= line then filled["threshold" := FieldText(line, THRESHOLD_PREFIX)]
      else if CONDITION_PREFIX <= line then filled["condition" := FieldText(line, CONDITION_PREFIX)]
      else filled
  }

  /** In a filled covenant a field holds the value of the LAST line of the
      block that sets it; without such a line it keeps its earlier value. */
  lemma {:induction false} FillField(current: Covenant, body: seq<string>, key: string, prefix: string)
    requires (key == "threshold" && prefix == THRESHOLD_PREFIX) || (key == "condition" && prefix == CONDITION_PREFIX)
    ensures LastValue(body, prefix).Some? ==>
      key in Fill(current, body) && Fill(current, body)[key] == LastValue(body, prefix).value
    ensures LastValue(body, prefix).None? ==>
      (key in Fill(current, body) <==> key in current) &&
      (key in current ==> Fill(current, body)[key] == current[key])
    decreases |body|
  {
    if |body| > 0 {
      FillField(current, body[..|body| - 1], key, prefix);
      FillFieldStep(current, body, key, prefix);
    }
  }

  /** The last line of a block either sets the field (and gives the last
      value) or leaves both the field and the last value as they were. */
  lemma FillFieldStep(current: Covenant, body: seq<string>, key: string, prefix: string)
    requires |body| > 0
    requires (key == "threshold" && prefix == THRESHOLD_PREFIX) || (key == "condition" && prefix == CONDITION_PREFIX)
    ensures var line, front := Strip(body[|body| - 1]), body[..|body| - 1];
      if prefix <= line then
        LastValue(body, prefix) == Some(FieldText(line, prefix)) &&
        key in Fill(current, body) && Fill(current, body)[key] == FieldText(line, prefix)
      else
        LastValue(body, prefix) == LastValue(front, prefix) &&
        (key in Fill(current, body) <==> key in Fill(current, front)) &&
        (key in Fill(current, front) ==> Fill(current, body)[key] == Fill(current, front)[key])
  {
    PrefixesDiffer(Strip(body[|body| - 1]));
  }

  /** Filling leaves every other field as it was. */
  lemma {:induction false} FillKeepsOthers(current: Covenant, body: seq<string>, key: string)
    requires key in current && key != "threshold" && key != "condition"
    ensures key in Fill(current, body) && Fill(current, body)[key] == current[key]
    decreases |body|
  {
    if |body| > 0 {
      FillKeepsOthers(current, body[..|body| - 1], key);
    }
  }

  /** The covenant a name line and the lines up to the next name line make. */
  function BlockRecord(name: string, body: seq<string>): Covenant
    requires IsNameLine(name)
  {
    Fill(map["name" := FieldText(Strip(name), NAME_PREFIX)], body)
  }

  /** A block's covenant: the name of its name line; a threshold exactly when
      some line of the block starts with "Threshold:", holding the text of
      the last one; the same for "Condition:"; and no other key. */
  lemma BlockRecordFields(name: string, body: seq<string>)
    requires IsNameLine(name)
    ensures BlockRecord(name, body).Keys <= {"name", "threshold", "condition"}
    ensures "name" in BlockRecord(name, body)
    ensures BlockRecord(name, body)["name"] == FieldText(Strip(name), NAME_PREFIX)
    ensures "threshold" in BlockRecord(name, body) <==> LastValue(body, THRESHOLD_PREFIX).Some?
    ensures "threshold" in BlockRecord(name, body) ==>
      BlockRecord(name, body)["threshold"] == LastValue(body, THRESHOLD_PREFIX).value
    ensures "condition" in BlockRecord(name, body) <==> LastValue(body, CONDITION_PREFIX).Some?
    ensures "condition" in BlockRecord(name, body) ==>
      BlockRecord(name, body)["condition"] == LastValue(body, CONDITION_PREFIX).value
  {
    var first := map["name" := FieldText(Strip(name), NAME_PREFIX)];
    FillKeepsOthers(first, body, "name");
    FillField(first, body, "threshold", THRESHOLD_PREFIX);
    FillField(first, body, "condition", CONDITION_PREFIX);
  }

  /** Inside an open covenant, a run of lines without a name line fills the
      fields of its block and closes nothing. */
  lemma {:induction false} RunBody(done: seq<Covenant>, current: Covenant, body: seq<string>)
    requires current != map[]
    requires forall j :: 0 <= j < |body| ==> !IsNameLine(body[j])
    ensures RunFrom(Scan(done, current), body) == Scan(done, Fill(current, body))
    decreases |body|
  {
    if |body| == 0 {
      assert Fill(current, body) == current;
    } else {
      var front, last := body[..|body| - 1], body[|body| - 1];
      RunBody(done, current, front);
      var open := Fill(current, front);
      var k :| k in current;
      assert k in open;
      var line := Strip(last);
      if THRESHOLD_PREFIX <= line {
        ThresholdOverwrites(Scan(done, open), last);
      } else if CONDITION_PREFIX <= line {
        ConditionOverwrites(Scan(done, open), last);
      } else {
        StepOtherLine(Scan(done, open), last);
      }
    }
  }

  /** Closed covenants are only appended to, so the ones closed before a run
      stay in front of whatever the run closes. */
  lemma {:induction false} RunKeepsDone(done: seq<Covenant>, current: Covenant, lines: seq<string>)
    ensures RunFrom(Scan(done, current), lines) ==
      Scan(done + RunFrom(Scan([], current), lines).done, RunFrom(Scan([], current), lines).current)
    decreases |lines|
  {
    if |lines| > 0 {
      var front, last := lines[..|lines| - 1], lines[|lines| - 1];
      var x := RunFrom(Scan([], current), front);
      RunKeepsDone(done, current, front);
      assert RunFrom(Scan(done, current), front) == Scan(done + x.done, x.current);
      StepKeepsDone(done, x, last);
    }
  }

  lemma StepKeepsDone(done: seq<Covenant>, st: Scan, raw: string)
    ensures Step(Scan(done + st.done, st.current), raw) ==
      Scan(done + Step(st, raw).done, Step(st, raw).current)
  {
    assert done + (st.done + [st.current]) == done + st.done + [st.current];
  }

  lemma RunOne(st: Scan, raw: string)
    ensures RunFrom(st, [raw]) == Step(st, raw)
  {
    assert [raw][..0] == [];
  }

  /** A name line and its block, scanned from the start, leave one open
      covenant. */
  lemma FirstBlock(name: string, body: seq<string>)
    requires IsNameLine(name)
    requires forall j :: 0 <= j < |body| ==> !IsNameLine(body[j])
    ensures RunFrom(Scan([], map[]), [name] + body) == Scan([], BlockRecord(name, body))
  {
    var empty := Scan([], map[]);
    var first := map["name" := FieldText(Strip(name), NAME_PREFIX)];
    assert "name" in first;
    RunFromAppend(empty, [name], body);
    RunOne(empty, name);
    StepNameLine(empty, name);
    RunBody([], first, body);
  }

  /** Scanning a name line and then more lines is scanning the more lines
      from the state the name line leaves. */
  lemma NameLineThenRun(st: Scan, raw: string, tail: seq<string>)
    requires IsNameLine(raw)
    ensures RunFrom(st, [raw] + tail) ==
      RunFrom(Scan(Flush(st), map["name" := FieldText(Strip(raw), NAME_PREFIX)]), tail)
  {
    RunFromAppend(st, [raw], tail);
    RunOne(st, raw);
    StepNameLine(st, raw);
  }

  lemma FlushAfterDone(done: seq<Covenant>, st: Scan)
    ensures Flush(Scan(done + st.done, st.current)) == done + Flush(st)
  {
    assert done + st.done + [st.current] == done + (st.done + [st.current]);
  }

  /** An open covenant is closed, in front of the rest's covenants, when the
      rest is empty or starts with a name line. */
  lemma CloseBeforeRest(open: Covenant, rest: seq<string>)
    requires open != map[]
    requires rest == [] || IsNameLine(rest[0])
    ensures Flush(RunFrom(Scan([], open), rest)) == [open] + CovenantsOf(rest)
  {
    if rest == [] {
      assert Flush(Scan([], open)) == [open];
    } else {
      var next := map["name" := FieldText(Strip(rest[0]), NAME_PREFIX)];
      var tail := rest[1..];
      var x := RunFrom(Scan([], next), tail);
      assert rest == [rest[0]] + tail;
      assert RunFrom(Scan([], open), rest) == Scan([open] + x.done, x.current) by {
        assert Flush(Scan([], open)) == [open];
        NameLineThenRun(Scan([], open), rest[0], tail);
        RunKeepsDone([open], next, tail);
      }
      assert CovenantsOf(rest) == Flush(x) by {
        NameLineThenRun(Scan([], map[]), rest[0], tail);
      }
      FlushAfterDone([open], x);
    }
  }

  /** A name line followed by the lines before the next name line (or the
      end) gives one covenant: its name, and the threshold and condition of
      the last Threshold and Condition lines of that block. Lines before the
      first name line are ignored, and the covenants of the rest follow. */
  lemma CovenantBlock(before: seq<string>, name: string, body: seq<string>, rest: seq<string>)
    requires forall j :: 0 <= j < |before| ==> !IsNameLine(before[j])
    requires IsNameLine(name)
    requires forall j :: 0 <= j < |body| ==> !IsNameLine(body[j])
    requires rest == [] || IsNameLine(rest[0])
    ensures CovenantsOf(before + [name] + body + rest) == [BlockRecord(name, body)] + CovenantsOf(rest)
  {
    ConcatFront(before, [name], body, rest);
    LeadingLinesIgnored(before, [name] + body + rest);
    FirstCovenantBlock(name, body, rest);
  }

  lemma ConcatFront(a: seq<string>, b: seq<string>, c: seq<string>, d: seq<string>)
    ensures a + b + c + d == a + (b + c + d)
  {
  }

  lemma FirstCovenantBlock(name: string, body: seq<string>, rest: seq<string>)
    requires IsNameLine(name)
    requires forall j :: 0 <= j < |body| ==> !IsNameLine(body[j])
    requires rest == [] || IsNameLine(rest[0])
    ensures CovenantsOf([name] + body + rest) == [BlockRecord(name, body)] + CovenantsOf(rest)
  {
    var rec := BlockRecord(name, body);
    RunFromAppend(Scan([], map[]), [name] + body, rest);
    FirstBlock(name, body);
    assert "name" in rec;
    CloseBeforeRest(rec, rest);
  }

  /** A Threshold line fills the open covenant's threshold, replacing any
      earlier one, and changes nothing else. */
  lemma ThresholdOverwrites(st: Scan, raw: string)
    requires st.current != map[] && THRESHOLD_PREFIX <= Strip(raw)
    ensures Step(st, raw) == Scan(st.done, st.current["threshold" := FieldText(Strip(raw), THRESHOLD_PREFIX)])
  {
    PrefixesDiffer(Strip(raw));
  }

  /** The three prefixes start with different characters, so a line starts
      with at most one of them. */
  lemma PrefixesDiffer(line: string)
    ensures THRESHOLD_PREFIX <= line ==> !(NAME_PREFIX <= line)
    ensures CONDITION_PREFIX <= line ==> !(NAME_PREFIX <= line) && !(THRESHOLD_PREFIX <= line)
  {
    assert NAME_PREFIX[0] == '-' && THRESHOLD_PREFIX[0] == 'T' && CONDITION_PREFIX[0] == 'C';
  }

  /** A Condition line fills the open covenant's condition, replacing any
      earlier one, and changes nothing else. */
  lemma ConditionOverwrites(st: Scan, raw: string)
    requires st.current != map[] && CONDITION_PREFIX <= Strip(raw)
    ensures Step(st, raw) == Scan(st.done, st.current["condition" := FieldText(Strip(raw), CONDITION_PREFIX)])
  {
    PrefixesDiffer(Strip(raw));
  }

  /** The body of the loop in `_parse_covenant_response`, for one raw line. */
  method ParseCovenantLine(covenants: seq<Covenant>, current: Covenant, raw: string)
    returns (covenants': seq<Covenant>, current': Covenant)
    ensures Scan(covenants', current') == Step(Scan(covenants, current), raw)
  {
    covenants', current' := covenants, current;
    var line := Strip(raw);
    if NAME_PREFIX <= line {
      StepNameLine(Scan(covenants, current), raw);
      if current != map[] {
        covenants' := covenants + [current];
      }
      ValueAfterPrefix(line, NAME_PREFIX);
      current' := map["name" := ValueAfterColon(line)];
    } else if THRESHOLD_PREFIX <= line && current != map[] {
      ThresholdOverwrites(Scan(covenants, current), raw);
      ValueAfterPrefix(line, THRESHOLD_PREFIX);
      current' := current["threshold" := ValueAfterColon(line)];
    } else if CONDITION_PREFIX <= line && current != map[] {
      ConditionOverwrites(Scan(covenants, current), raw);
      ValueAfterPrefix(line, CONDITION_PREFIX);
      current' := current["condition" := ValueAfterColon(line)];
    } else {
      StepOtherLine(Scan(covenants, current), raw);
    }
  }

  /** `_parse_covenant_response`: a name line closes the open covenant and
      opens a new one; Threshold and Condition lines fill the open one. */
  method ParseCovenantResponse(response: string) returns (covenants: seq<Covenant>)
    ensures covenants == CovenantsOf(Split(response, '\n'))
    ensures WellFormed(covenants)
    ensures |covenants| == |NameValues(Split(response, '\n'))|
    ensures forall i :: 0 <= i < |covenants| ==>
      covenants[i]["name"] == NameValues(Split(response, '\n'))[i]
  {
    var lines := Split(response, '\n');
    covenants := [];
    var current: Covenant := map[];
    for i := 0 to |lines|
      invariant Scan(covenants, current) == RunFrom(Scan([], map[]), lines[..i])
    {
      assert lines[..i + 1][..i] == lines[..i];
      covenants, current := ParseCovenantLine(covenants, current, lines[i]);
    }
    if current != map[] {
      covenants := covenants + [current];
    }
    assert lines[..|lines|] == lines;
    CovenantsMatchNameLines(lines);
  }

  // ---------------------------------------------------------------------
  // get_confidence_score
  // ---------------------------------------------------------------------

  const CERTAINTY_INDICATORS: seq<string> := ["clearly", "definitely", "explicitly", "states that"]
  const UNCERTAINTY_INDICATORS: seq<string> := ["may", "might", "unclear", "ambiguous", "possibly"]

  /** How many of the words occur in the text; each word counts at most once. */
  function CountPresent(words: seq<string>, text: string): (n: nat)
    ensures n <= |words|
    ensures n == 0 <==> forall i :: 0 <= i < |words| ==> !Contains(text, words[i])
    decreases |words|
  {
    if |words| == 0 then 0
    else (if Contains(text, words[0]) then 1 else 0) + CountPresent(words[1..], text)
  }

  function CertaintyCount(response: string): (n: nat)
    ensures n <= 4
  {
    CountPresent(CERTAINTY_INDICATORS, Lower(response))
  }

  function UncertaintyCount(response: string): (n: nat)
    ensures n <= 5
  {
    CountPresent(UNCERTAINTY_INDICATORS, Lower(response))
  }

  /** `c / t` for counts with `0 <= c <= t` and `t > 0`. */
  function Ratio(c: nat, t: nat): (r: real)
    requires c <= t && t > 0
    ensures 0.0 <= r <= 1.0
    ensures r * t as real == c as real
  {
    var r := c as real / t as real;
    assert r * t as real == c as real;
    assert r <= 1.0 by {
      if r > 1.0 {
        assert r * t as real > 1.0 * t as real;
      }
    }
    r
  }

  /** The score for `c` certainty and `u` uncertainty indicators. */
  function Score(c: nat, u: nat): (score: real)
    ensures 0.0 <= score <= 1.0
    ensures c + u == 0 ==> score == 0.5
    ensures c + u > 0 ==> score * (c + u) as real == c as real
  {
    if c + u == 0 then 0.5 else Ratio(c, c + u)
  }

  /** `get_confidence_score`: the share of certainty indicators among the
      indicators present, or one half when none is present. */
  function ConfidenceScore(response: string): (score: real)
    ensures 0.0 <= score <= 1.0
  {
    Score(CertaintyCount(response), UncertaintyCount(response))
  }

  lemma SignOfProduct(x: real, y: real)
    requires y > 0.0
    ensures x > 0.0 <==> x * y > 0.0
    ensures x < 0.0 <==> x * y < 0.0
  {
  }

  lemma HalfComparison(c: nat, t: nat)
    requires c <= t && t > 0
    ensures Ratio(c, t) > 0.5 <==> 2 * c > t
    ensures Ratio(c, t) < 0.5 <==> 2 * c < t
  {
    var r := Ratio(c, t);
    var tr := t as real;
    if r > 0.5 { assert r * tr > 0.5 * tr; }
    if r < 0.5 { assert r * tr < 0.5 * tr; }
    if r == 0.5 { assert r * tr == 0.5 * tr; }
    assert r * tr == c as real;
    SignOfProduct(r - 0.5, tr);
    assert (r - 0.5) * tr == c as real - 0.5 * tr;
    assert 2 * c > t <==> c as real - 0.5 * tr > 0.0;
    assert 2 * c < t <==> c as real - 0.5 * tr < 0.0;
  }

  lemma RatioExtremes(c: nat, t: nat)
    requires c <= t && t > 0
    ensures Ratio(c, t) == 1.0 <==> c == t
    ensures Ratio(c, t) == 0.0 <==> c == 0
  {
    var r := Ratio(c, t);
    var tr := t as real;
    assert r * tr == c as real;
    if r < 1.0 { assert r * tr < 1.0 * tr; }
    if r > 0.0 { assert r * tr > 0.0; }
  }

  /** The score leans towards certainty exactly when more certainty
      indicators than uncertainty indicators occur. */
  lemma ConfidenceAboveHalf(response: string)
    ensures ConfidenceScore(response) > 0.5 <==> CertaintyCount(response) > UncertaintyCount(response)
    ensures ConfidenceScore(response) < 0.5 <==> CertaintyCount(response) < UncertaintyCount(response)
  {
    var c := CertaintyCount(response);
    var u := UncertaintyCount(response);
    if c + u > 0 {
      HalfComparison(c, c + u);
    }
  }

  /** With no indicator word in the reply the score is exactly one half. */
  lemma ConfidenceWithoutIndicators(response: string)
    requires forall i :: 0 <= i < |CERTAINTY_INDICATORS| ==> !Contains(Lower(response), CERTAINTY_INDICATORS[i])
    requires forall i :: 0 <= i < |UNCERTAINTY_INDICATORS| ==> !Contains(Lower(response), UNCERTAINTY_INDICATORS[i])
    ensures ConfidenceScore(response) == 0.5
  {
  }

  /** The score is 1 exactly when only certainty indicators occur, and 0
      exactly when only uncertainty indicators occur. */
  lemma ConfidenceExtremes(response: string)
    ensures ConfidenceScore(response) == 1.0 <==>
      CertaintyCount(response) > 0 && UncertaintyCount(response) == 0
    ensures ConfidenceScore(response) == 0.0 <==>
      CertaintyCount(response) == 0 && UncertaintyCount(response) > 0
  {
    ScoreExtremes(CertaintyCount(response), UncertaintyCount(response));
  }

  lemma ScoreExtremes(c: nat, u: nat)
    ensures Score(c, u) == 1.0 <==> c > 0 && u == 0
    ensures Score(c, u) == 0.0 <==> c == 0 && u > 0
  {
    if c + u > 0 {
      RatioExtremes(c, c + u);
    }
  }
}

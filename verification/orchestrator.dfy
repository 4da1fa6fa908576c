/** The caller side of the core in main.py: how each stipulation is given a
    section name and a piece of evidence, and what the summary of the
    compliance results says with and without an API key. */
module Orchestrator {
  import opened ComplianceEngine
  import opened DataLoader
  import opened Text

  /** The section names requested from every document (config/settings.py). */
  const DOCUMENT_SECTIONS: seq<string> := [
    "Definitions",
    "Covenants",
    "Events of Default",
    "Collateral",
    "Payment Priority",
    "Coverage Tests",
    "Concentration Limits",
    "Rating Requirements"
  ]

  /** How much of the document stands in for a section that was not found. */
  const FALLBACK_CHARS: nat := 1000

  /** `d.get(key, default)` */
  function Get(d: Record, key: string, default: string): string {
    if key in d then d[key] else default
  }

  /** `stip.get('section', DOCUMENT_SECTIONS[0])` */
  function SectionNameFor(stip: Record): (name: string)
    ensures "section" !in stip ==> name == "Definitions"
    ensures "section" in stip ==> name == stip["section"]
  {
    Get(stip, "section", DOCUMENT_SECTIONS[0])
  }

  /** `sections.get(section_name, document_text[:1000])`: the extracted
      section when there is one, otherwise the first 1000 characters. */
  function EvidenceFor(sections: map<string, string>, name: string, document: string): (evidence: string)
    ensures name in sections ==> evidence == sections[name]
    ensures name !in sections ==> evidence <= document
    ensures name !in sections ==>
      |evidence| == if |document| < FALLBACK_CHARS then |document| else FALLBACK_CHARS
  {
    if name in sections then sections[name]
    else document[..if |document| < FALLBACK_CHARS then |document| else FALLBACK_CHARS]
  }

  /** Without an API key every check of a batch is counted as passed,
      whatever the sections and the rules say. */
  lemma KeylessBatchPasses(e: Engine, checks: seq<(string, string)>, template: PromptTemplate,
                           results: seq<Record>)
    requires e.apiKey == ""
    requires results == CheckAll(e, checks, template)
    ensures Summarize(results) == Summary(|checks|, |checks|, 0, 0)
  {
    CheckAllPairwise(e, checks, template);
    AllPassedSummary(results);
  }

  /** With a key but the model call still replaced by the placeholder reply,
      every check of a batch is counted as unclear. */
  lemma PlaceholderBatchUnclear(e: Engine, checks: seq<(string, string)>, template: PromptTemplate,
                                results: seq<Record>)
    requires e.apiKey != ""
    requires forall prompt :: e.llm(prompt) == PLACEHOLDER_REPLY
    requires results == CheckAll(e, checks, template)
    ensures Summarize(results) == Summary(|checks|, 0, 0, |checks|)
  {
    CheckAllPairwise(e, checks, template);
    PlaceholderStatus();
    AllUnclearSummary(results);
  }

  /** With a key, a check counts as passed exactly when the model's reply
      mentions PASS in any case. */
  lemma KeyedCheckOutcome(e: Engine, section: string, rule: string, template: PromptTemplate)
    requires e.apiKey != ""
    ensures OutcomeOf(CheckCompliance(e, section, rule, template)) == Passed <==>
      Contains(Upper(e.llm(template(section, rule))), "PASS")
  {
    StatusOutcome(CheckCompliance(e, section, rule, template), e.llm(template(section, rule)));
  }

  /** A row whose status was read from a reply counts as passed exactly when
      the reply mentions PASS in any case. */
  lemma StatusOutcome(row: Record, reply: string)
    requires "status" in row && row["status"] == StatusOf(reply)
    ensures OutcomeOf(row) == Passed <==> Contains(Upper(reply), "PASS")
  {
    assert Upper("PASS") == "PASS";
    assert Upper("FAIL") == "FAIL";
    assert Upper("UNCLEAR") == "UNCLEAR";
  }
}
